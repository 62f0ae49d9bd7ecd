/**
 * The game session of the current package: the state a `GameViewModel`
 * holds between the player's actions. The coroutine ticker is a flag,
 * `timerActive`, and an explicit `Tick`; the Compose state holders are plain
 * fields. The score file is passed in and out as a value.
 */
module Session {
  import opened Wrappers
  import opened Decimal
  import opened DataManagement
  import opened Grid
  import opened FloodFill
  import GameLogic

  /** Columns for a size difficulty: 4, plus 2 for each level above the easiest. */
  function Columns(sizeDiff: int): (c: int)
    ensures c % 2 == 0
    ensures c >= 4 <==> sizeDiff >= 0
  {
    4 + sizeDiff * 2
  }

  /** Rows: twice the columns. */
  function Rows(sizeDiff: int): (r: int)
    ensures r % 4 == 0
    ensures r >= 8 <==> sizeDiff >= 0
  {
    Columns(sizeDiff) * 2
  }

  /** Mines: 6, plus 2 for each mine and each size level above the easiest. */
  function MineTotal(mineDiff: int, sizeDiff: int): (m: int)
    ensures m % 2 == 0
    ensures m >= 6 <==> mineDiff + sizeDiff >= 0
  {
    6 + (mineDiff + sizeDiff) * 2
  }

  /**
   * The easiest setup is 4 columns, 8 rows and 6 mines; each size level adds
   * 2 columns, 4 rows and 2 mines, and each mine level adds 2 mines.
   */
  lemma SetupSteps(mineDiff: int, sizeDiff: int)
    ensures Columns(0) == 4 && Rows(0) == 8 && MineTotal(0, 0) == 6
    ensures Columns(sizeDiff + 1) == Columns(sizeDiff) + 2
    ensures Rows(sizeDiff + 1) == Rows(sizeDiff) + 4
    ensures MineTotal(mineDiff, sizeDiff + 1) == MineTotal(mineDiff, sizeDiff) + 2
    ensures MineTotal(mineDiff + 1, sizeDiff) == MineTotal(mineDiff, sizeDiff) + 2
  {
  }

  /**
   * The difficulties the session can start from: no step of the formula
   * leaves the 32-bit range, there is at least one column, and there are no
   * more mines than squares, without which mine placement would not end.
   */
  predicate ValidSetup(mineDiff: int, sizeDiff: int) {
    IsInt(mineDiff) && IsInt(sizeDiff) && IsInt(sizeDiff * 2) && IsInt(Columns(sizeDiff)) && IsInt(Rows(sizeDiff))
    && IsInt(mineDiff + sizeDiff) && IsInt((mineDiff + sizeDiff) * 2) && IsInt(MineTotal(mineDiff, sizeDiff))
    && Columns(sizeDiff) > 0 && MineTotal(mineDiff, sizeDiff) <= Columns(sizeDiff) * Rows(sizeDiff)
  }

  /**
   * Every pair of difficulty ordinals is a valid setup, and leaves at least
   * one square free of mines.
   */
  lemma OrdinalsAreValidSetups(mineDiff: int, sizeDiff: int)
    requires 0 <= mineDiff <= 2 && 0 <= sizeDiff <= 2
    ensures ValidSetup(mineDiff, sizeDiff)
    ensures 0 < MineTotal(mineDiff, sizeDiff) < Columns(sizeDiff) * Rows(sizeDiff)
  {
    assert Columns(sizeDiff) * Rows(sizeDiff) == 2 * Columns(sizeDiff) * Columns(sizeDiff);
    assert Columns(sizeDiff) >= 4;
    assert Columns(sizeDiff) * Columns(sizeDiff) >= 4 * Columns(sizeDiff);
  }

  /**
   * A freshly generated board for the given difficulties. A mine total below
   * zero places no mine, as the placing loop then never runs.
   */
  ghost predicate NewBoard(g: Board, mineDiff: int, sizeDiff: int) {
    |g| == Columns(sizeDiff) && Rectangular(g) && Height(g) == Rows(sizeDiff)
    && MineCount(g) == (if MineTotal(mineDiff, sizeDiff) > 0 then MineTotal(mineDiff, sizeDiff) else 0)
    && ConsistentNumbers(g)
    && forall i, j :: InBounds(g, i, j) ==> !g[i][j].isClicked && !g[i][j].isFlagged
  }

  /**
   * The win check of `onSquareClick`: a scan of every column and square that
   * stops at the first square that is neither a mine nor revealed.
   */
  method AllSafeRevealed(g: Board) returns (won: bool)
    ensures won <==> Cleared(g)
  {
    for i := 0 to |g|
      invariant forall a, b :: InBounds(g, a, b) && a < i ==> g[a][b].isMine || g[a][b].isClicked
    {
      for j := 0 to |g[i]|
        invariant forall a, b :: InBounds(g, a, b) && (a < i || (a == i && b < j)) ==> g[a][b].isMine || g[a][b].isClicked
      {
        if !g[i][j].isMine && !g[i][j].isClicked {
          return false;
        }
      }
    }
    return true;
  }

  class GameViewModel {
    var grid: Board
    var time: int
    var timerActive: bool
    var isGameOver: bool
    var isWin: bool
    var isStarted: bool
    var mineDiff: int
    var sizeDiff: int

    /**
     * What every action keeps: a rectangular board whose numbers match its
     * mines, no square both revealed and flagged, a 32-bit time, a win only
     * as an ended game on a cleared board, and no revealed mine unless the
     * game was lost.
     */
    ghost predicate Valid()
      reads this
    {
      Rectangular(grid) && ConsistentNumbers(grid) && NoClickedFlag(grid) && IsInt(time)
      && (isWin ==> isGameOver && Cleared(grid))
      && (!isGameOver || isWin ==> NoMineClicked(grid))
    }

    constructor ()
      ensures Valid()
      ensures grid == [] && time == 0 && !timerActive && !isGameOver && !isWin && !isStarted
      ensures mineDiff == 0 && sizeDiff == 0
    {
      grid := [];
      time := 0;
      timerActive := false;
      isGameOver := false;
      isWin := false;
      isStarted := false;
      mineDiff := 0;
      sizeDiff := 0;
    }

    /** `startTimer`: any running ticker is cancelled and one new ticker runs. */
    method StartTimer()
      modifies this
      ensures timerActive
      ensures grid == old(grid) && time == old(time) && isGameOver == old(isGameOver) && isWin == old(isWin)
      ensures isStarted == old(isStarted) && mineDiff == old(mineDiff) && sizeDiff == old(sizeDiff)
    {
      timerActive := true;
    }

    /** `stopTimer`: the ticker is cancelled. */
    method StopTimer()
      modifies this
      ensures !timerActive
      ensures grid == old(grid) && time == old(time) && isGameOver == old(isGameOver) && isWin == old(isWin)
      ensures isStarted == old(isStarted) && mineDiff == old(mineDiff) && sizeDiff == old(sizeDiff)
    {
      timerActive := false;
    }

    /**
     * One second of the ticker: a running timer adds one to the time, with
     * the wrap-around of a Kotlin `Int`; a stopped one changes nothing.
     */
    method Tick()
      requires Valid()
      modifies this
      ensures Valid()
      ensures time == if old(timerActive) then WrapIncrement(old(time)) else old(time)
      ensures grid == old(grid) && timerActive == old(timerActive) && isGameOver == old(isGameOver) && isWin == old(isWin)
      ensures isStarted == old(isStarted) && mineDiff == old(mineDiff) && sizeDiff == old(sizeDiff)
    {
      if timerActive {
        WrapIncrementStaysInt(time);
        time := WrapIncrement(time);
      }
    }

    /**
     * `startGame`: does nothing once a game has been started; otherwise
     * records the difficulties, generates a board of the formula's size,
     * resets the time and the outcome and starts the timer.
     */
    method StartGame(mineDiff': int, sizeDiff': int)
      requires Valid() && (isStarted || ValidSetup(mineDiff', sizeDiff'))
      modifies this
      ensures Valid()
      ensures old(isStarted) ==>
        grid == old(grid) && time == old(time) && timerActive == old(timerActive)
        && isGameOver == old(isGameOver) && isWin == old(isWin) && isStarted
        && mineDiff == old(mineDiff) && sizeDiff == old(sizeDiff)
      ensures !old(isStarted) ==>
        isStarted && mineDiff == mineDiff' && sizeDiff == sizeDiff'
        && NewBoard(grid, mineDiff', sizeDiff') && time == 0 && !isGameOver && !isWin && timerActive
    {
      if isStarted {
        return;
      }
      isStarted := true;
      mineDiff := mineDiff';
      sizeDiff := sizeDiff';
      var x := 4 + sizeDiff' * 2;
      var y := x * 2;
      var mineCount := 6 + (mineDiff' + sizeDiff') * 2;
      grid := GameLogic.GenerateGrid(x, y, mineCount);
      time := 0;
      isGameOver := false;
      isWin := false;
      StartTimer();
    }

    /**
     * `onSquareClick`: ignored on a flagged square or after the game has
     * ended. Otherwise the square is revealed; a mine ends the game as a loss
     * and stops the timer, and a board on which every safe square is now
     * revealed ends it as a win and stops the timer.
     */
    method OnSquareClick(x: int, y: int)
      requires Valid() && InBounds(grid, x, y)
      modifies this
      ensures Valid()
      ensures time == old(time) && isStarted == old(isStarted) && mineDiff == old(mineDiff) && sizeDiff == old(sizeDiff)
      ensures old(grid[x][y].isFlagged) || old(isGameOver) ==>
        grid == old(grid) && timerActive == old(timerActive) && isGameOver == old(isGameOver) && isWin == old(isWin)
      ensures !old(grid[x][y].isFlagged) && !old(isGameOver) ==> grid == Reveal(old(grid), x, y)
      ensures !old(grid[x][y].isFlagged) && !old(isGameOver) && old(grid[x][y].isMine) ==>
        isGameOver && !isWin && !timerActive
      ensures !old(grid[x][y].isFlagged) && !old(isGameOver) && !old(grid[x][y].isMine) ==>
        (isWin <==> Cleared(grid)) && (isGameOver <==> Cleared(grid))
        && timerActive == (old(timerActive) && !Cleared(grid)) && NoMineClicked(grid)
    {
      if grid[x][y].isFlagged || isGameOver {
        return;
      }
      ghost var before := grid;
      grid := GameLogic.RevealSquares(grid, x, y);
      RevealKeepsNumbers(before, x, y);
      RevealKeepsFlagsHidden(before, x, y);
      assert InBounds(grid, x, y) && grid[x][y].isMine == before[x][y].isMine;
      if grid[x][y].isMine {
        isGameOver := true;
        StopTimer();
        return;
      }
      RevealKeepsNoMineClicked(before, x, y);
      var won := AllSafeRevealed(grid);
      if !won {
        return;
      }
      isGameOver := true;
      isWin := true;
      StopTimer();
    }

    /**
     * `onClickHold`: ignored on a revealed square; otherwise flips that
     * square's flag and nothing else. It applies after the game has ended too.
     */
    method OnClickHold(x: int, y: int)
      requires Valid() && InBounds(grid, x, y)
      modifies this
      ensures Valid()
      ensures old(grid[x][y].isClicked) ==> grid == old(grid)
      ensures !old(grid[x][y].isClicked) ==> grid == WithFlagToggled(old(grid), x, y)
      ensures time == old(time) && timerActive == old(timerActive) && isGameOver == old(isGameOver) && isWin == old(isWin)
      ensures isStarted == old(isStarted) && mineDiff == old(mineDiff) && sizeDiff == old(sizeDiff)
    {
      if grid[x][y].isClicked {
        return;
      }
      ToggleKeepsBoardFacts(grid, x, y);
      grid := WithFlagToggled(grid, x, y);
    }

    /**
     * `onSaveScoreClick`: the score of the current game under the player's
     * name, and the score file with its row appended. Difficulties outside
     * the three options fail in the source when the option is looked up.
     */
    method OnSaveScoreClick(file: Option<seq<Row>>, name: string) returns (score: Score, saved: seq<Row>)
      requires 0 <= mineDiff < 3 && 0 <= sizeDiff < 3
      ensures score.name == name && score.time == time
      ensures score.mineDifficulty.Ordinal() == mineDiff && score.sizeDifficulty.Ordinal() == sizeDiff
      ensures saved == AppendScore(file, score)
      ensures saved[|saved| - 1] == [name, IntToString(time), IntToString(mineDiff), IntToString(sizeDiff)]
    {
      score := Score(name, time, Entries()[mineDiff], Entries()[sizeDiff]);
      saved := AppendScore(file, score);
    }

    /** `restartGame`: clears the start latch, so a new game always begins. */
    method RestartGame(mineDiff': int, sizeDiff': int)
      requires Valid() && ValidSetup(mineDiff', sizeDiff')
      modifies this
      ensures Valid()
      ensures isStarted && mineDiff == mineDiff' && sizeDiff == sizeDiff'
      ensures NewBoard(grid, mineDiff', sizeDiff') && time == 0 && !isGameOver && !isWin && timerActive
    {
      isStarted := false;
      StartGame(mineDiff', sizeDiff');
    }
  }
}
