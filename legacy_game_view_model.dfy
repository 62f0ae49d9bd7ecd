/**
 * The game session of the older package. It has the same fields as the
 * current one but no start latch: every `startGame` builds a new board.
 * The board formula, the win check and the reveal are shared with the
 * current session; the older package uses them from the files of its own
 * that are not part of this model.
 */
module LegacySession {
  import opened Wrappers
  import opened Decimal
  import opened DataManagement
  import opened Grid
  import opened FloodFill
  import GameLogic
  import LegacyDataManagement
  import Session

  class GameViewModel {
    var grid: Board
    var time: int
    var timerActive: bool
    var isGameOver: bool
    var isWin: bool
    var mineDiff: int
    var sizeDiff: int

    /** The same invariant as the current session's. */
    ghost predicate Valid()
      reads this
    {
      Rectangular(grid) && ConsistentNumbers(grid) && NoClickedFlag(grid) && IsInt(time)
      && (isWin ==> isGameOver && Cleared(grid))
      && (!isGameOver || isWin ==> NoMineClicked(grid))
    }

    constructor ()
      ensures Valid()
      ensures grid == [] && time == 0 && !timerActive && !isGameOver && !isWin
      ensures mineDiff == 0 && sizeDiff == 0
    {
      grid := [];
      time := 0;
      timerActive := false;
      isGameOver := false;
      isWin := false;
      mineDiff := 0;
      sizeDiff := 0;
    }

    /** `startTimer`: any running ticker is cancelled and one new ticker runs. */
    method StartTimer()
      modifies this
      ensures timerActive
      ensures grid == old(grid) && time == old(time) && isGameOver == old(isGameOver) && isWin == old(isWin)
      ensures mineDiff == old(mineDiff) && sizeDiff == old(sizeDiff)
    {
      timerActive := true;
    }

    /** `stopTimer`: the ticker is cancelled. */
    method StopTimer()
      modifies this
      ensures !timerActive
      ensures grid == old(grid) && time == old(time) && isGameOver == old(isGameOver) && isWin == old(isWin)
      ensures mineDiff == old(mineDiff) && sizeDiff == old(sizeDiff)
    {
      timerActive := false;
    }

    /** One second of the ticker, with the wrap-around of a Kotlin `Int`. */
    method Tick()
      requires Valid()
      modifies this
      ensures Valid()
      ensures time == if old(timerActive) then WrapIncrement(old(time)) else old(time)
      ensures grid == old(grid) && timerActive == old(timerActive) && isGameOver == old(isGameOver) && isWin == old(isWin)
      ensures mineDiff == old(mineDiff) && sizeDiff == old(sizeDiff)
    {
      if timerActive {
        WrapIncrementStaysInt(time);
        time := WrapIncrement(time);
      }
    }

    /**
     * `startGame`: always records the difficulties, generates a board of the
     * formula's size, resets the time and the outcome and starts the timer.
     */
    method StartGame(mineDiff': int, sizeDiff': int)
      requires Valid() && Session.ValidSetup(mineDiff', sizeDiff')
      modifies this
      ensures Valid()
      ensures mineDiff == mineDiff' && sizeDiff == sizeDiff'
      ensures Session.NewBoard(grid, mineDiff', sizeDiff') && time == 0 && !isGameOver && !isWin && timerActive
    {
      mineDiff := mineDiff';
      sizeDiff := sizeDiff';
      var x := 4 + sizeDiff' * 2;
      var y := x * 2;
      var mineCount := 6 + (mineDiff' + sizeDiff') * 2;
      grid := GameLogic.GenerateGrid(x, y, mineCount);
      time := 0;
      isGameOver := false;
      isWin := false;
      StartTimer();
    }

    /**
     * `onSquareClick`: ignored on a flagged square or after the game has
     * ended; otherwise reveals, and ends the game on a mine (a loss) or on a
     * cleared board (a win), stopping the timer either way.
     */
    method OnSquareClick(x: int, y: int)
      requires Valid() && InBounds(grid, x, y)
      modifies this
      ensures Valid()
      ensures time == old(time) && mineDiff == old(mineDiff) && sizeDiff == old(sizeDiff)
      ensures old(grid[x][y].isFlagged) || old(isGameOver) ==>
        grid == old(grid) && timerActive == old(timerActive) && isGameOver == old(isGameOver) && isWin == old(isWin)
      ensures !old(grid[x][y].isFlagged) && !old(isGameOver) ==> grid == Reveal(old(grid), x, y)
      ensures !old(grid[x][y].isFlagged) && !old(isGameOver) && old(grid[x][y].isMine) ==>
        isGameOver && !isWin && !timerActive
      ensures !old(grid[x][y].isFlagged) && !old(isGameOver) && !old(grid[x][y].isMine) ==>
        (isWin <==> Cleared(grid)) && (isGameOver <==> Cleared(grid))
        && timerActive == (old(timerActive) && !Cleared(grid)) && NoMineClicked(grid)
    {
      if grid[x][y].isFlagged || isGameOver {
        return;
      }
      ghost var before := grid;
      grid := GameLogic.RevealSquares(grid, x, y);
      RevealKeepsNumbers(before, x, y);
      RevealKeepsFlagsHidden(before, x, y);
      assert InBounds(grid, x, y) && grid[x][y].isMine == before[x][y].isMine;
      if grid[x][y].isMine {
        isGameOver := true;
        StopTimer();
        return;
      }
      RevealKeepsNoMineClicked(before, x, y);
      var won := Session.AllSafeRevealed(grid);
      if !won {
        return;
      }
      isGameOver := true;
      isWin := true;
      StopTimer();
    }

    /** `onClickHold`: flips the flag of a hidden square, even after the game has ended. */
    method OnClickHold(x: int, y: int)
      requires Valid() && InBounds(grid, x, y)
      modifies this
      ensures Valid()
      ensures old(grid[x][y].isClicked) ==> grid == old(grid)
      ensures !old(grid[x][y].isClicked) ==> grid == WithFlagToggled(old(grid), x, y)
      ensures time == old(time) && timerActive == old(timerActive) && isGameOver == old(isGameOver) && isWin == old(isWin)
      ensures mineDiff == old(mineDiff) && sizeDiff == old(sizeDiff)
    {
      if grid[x][y].isClicked {
        return;
      }
      ToggleKeepsBoardFacts(grid, x, y);
      grid := WithFlagToggled(grid, x, y);
    }

    /**
     * `saveScore`: the score of the current game and the score file as the
     * older `saveScore` leaves it, with the header row first in a new file.
     */
    method SaveScore(file: Option<seq<Row>>, header: Row, name: string) returns (score: Score, saved: seq<Row>)
      requires 0 <= mineDiff < 3 && 0 <= sizeDiff < 3
      ensures score.name == name && score.time == time
      ensures score.mineDifficulty.Ordinal() == mineDiff && score.sizeDifficulty.Ordinal() == sizeDiff
      ensures saved == LegacyDataManagement.AppendScore(file, header, score)
      ensures saved[|saved| - 1] == [name, IntToString(time), IntToString(mineDiff), IntToString(sizeDiff)]
    {
      score := Score(name, time, Entries()[mineDiff], Entries()[sizeDiff]);
      saved := LegacyDataManagement.AppendScore(file, header, score);
    }
  }
}
