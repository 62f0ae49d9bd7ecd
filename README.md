# MinovePole in Dafny

A Dafny model of the game engine of MinovePole, an Android Minesweeper written in Kotlin, and of the small state holders around it:

- **Board logic.** Mines are placed by rejection sampling, written in place into the grid. Every square gets the number of mines among its up to eight neighbours. A board is built from columns of fresh squares. `revealSquares` is the recursive, copy-on-write flood fill.
- **The game sessions.** The current `GameViewModel` has a start latch and the older one has none. Each is a class whose methods update its fields: starting, revealing, flagging, the timer and saving a score.
- **Score records.** These are the `Square`, `Score` and `DifficultyOption` types. The pure half of persistence (the row a score is written as, the decoding and the sort by time) is modelled for both the current and the older package.
- **View models.** The leaderboard view model and its display filter, and the difficulty selection view model.

The board is `seq<seq<Square>>`, indexed column first as in the source (`g[x][y]`). Generation works on an `array2<Square>` in place, because `generateMines` and `calculateSurrounding` write the squares' `var` fields. The reveal is a function, `FloodFill.Reveal`. The method `GameLogic.RevealSquares` keeps the source's two neighbour loops and its recursion, and is proved equal to that function.

Kotlin's `Int` is modelled where it matters:
- The time is a 32-bit value, and a tick wraps as `+= 1` does.
- `Int.toString` and `String.toInt` are written out (`Decimal`). `toInt` takes an optional sign, at least one ASCII digit and a range check.

The model follows the code as written:
- Flagging is allowed after the game has ended.
- A score can be built whatever the game's outcome.
- Indexing outside the board throws in the code, so in-range coordinates are a precondition of `onSquareClick` and `onClickHold`.
- A mine count equal to the number of squares is accepted.
- With more mines than free squares `generateMines` never returns.

Modules and files:
- `wrappers.dfy`: `Option` and `Result`.
- `decimal.dfy`: Kotlin `Int` and its conversions.
- `data_management.dfy`: record types, rows, decoding, stable sort.
- `legacy_data_management.dfy`: the older persistence.
- `grid.dfy`: counting, adjacency, numbers and flags on boards.
- `flood_fill.dfy`: the reveal and what it uncovers.
- `game_logic.dfy`: generation on arrays, and the reveal with its loops.
- `game_view_model.dfy`: the current session.
- `legacy_game_view_model.dfy`: the older session.
- `leader_board.dfy`: the leaderboard.
- `difficulty_select.dfy`: difficulty selection.

## Model

| member | source | states |
|---|---|---|
| DataManagement.Entries | app/src/main/java/com/minovepole/data/DataManagement.kt:16-23 | exactly three entries, the one at index k having ordinal k |
| DataManagement.EntriesAreAllOptions | app/src/main/java/com/minovepole/data/DataManagement.kt:16-23 | every option is among the entries, at the index its ordinal names, and ordinals are below 3 |
| DataManagement.DefaultSquare | app/src/main/java/com/minovepole/data/DataManagement.kt:48-53 | a default square is not a mine, not revealed, not flagged and has number 0 |
| DataManagement.EncodeRow | app/src/main/java/com/minovepole/data/DataManagement.kt:68-73 | a row of four fields: the name, the time's decimal text, and each difficulty as the single digit of its ordinal |
| DataManagement.OptionAt | app/src/main/java/com/minovepole/data/DataManagement.kt:95-96 | the option is found exactly when the field parses to a number in 0..2, and it is the option with that ordinal; non-numeric text is a number-format error, a number outside 0..2 an index error |
| DataManagement.DecodeRow | app/src/main/java/com/minovepole/data/DataManagement.kt:86-97 | a row is dropped exactly when one of its first four fields is missing; a complete row fails exactly when its time or an ordinal does not decode, with the error of the first of them in argument order; otherwise it is parsed, its name, time and ordinals being what fields 0 to 3 parse to |
| DataManagement.RowRoundTrip | app/src/main/java/com/minovepole/data/DataManagement.kt:68-73 | decoding the row written for a score whose time fits an Int gives back that same score |
| DataManagement.DecodeRows | app/src/main/java/com/minovepole/data/DataManagement.kt:86-97 | a decode succeeds exactly when no row fails, and then yields at most one score per row |
| DataManagement.DecodeOneRow | app/src/main/java/com/minovepole/data/DataManagement.kt:86-97 | a file of one row reads as nothing when the row is dropped, as its score when it parses, and fails with its error otherwise |
| DataManagement.DecodeSkipsShortRow | app/src/main/java/com/minovepole/data/DataManagement.kt:91-97 | a row with fewer than four fields is dropped: the file reads exactly as the file without it |
| DataManagement.DecodeRowsAppend | app/src/main/java/com/minovepole/data/DataManagement.kt:86-97 | the scores read from two parts of a file are those of the first part followed by those of the second; a failure of the first part is the error of the whole, then a failure of the second |
| DataManagement.DecodeRowsFirstFailure | app/src/main/java/com/minovepole/data/DataManagement.kt:86-97 | a failed read carries the error of the first row that fails, no earlier row failing |
| DataManagement.DecodeEncodeAll | app/src/main/java/com/minovepole/data/DataManagement.kt:86-97 | decoding the rows of a list of scores gives back that list, in order |
| DataManagement.InsertByTime | app/src/main/java/com/minovepole/data/DataManagement.kt:98 | the result is one longer; it starts with the new score when the list is empty or the list's first score is not faster, and otherwise with that first score; it holds exactly the old scores plus the new one, and is sorted whenever the list was |
| DataManagement.SortByTime | app/src/main/java/com/minovepole/data/DataManagement.kt:98 | the result is sorted ascending by time and is a permutation of the input |
| DataManagement.InsertByTimeStable | app/src/main/java/com/minovepole/data/DataManagement.kt:98 | insertion puts the new score after the scores of equal time already sorted in front of it |
| DataManagement.SortByTimeStable | app/src/main/java/com/minovepole/data/DataManagement.kt:98 | for every time, the scores with that time keep their input order: the sort is stable |
| DataManagement.ReadScores | app/src/main/java/com/minovepole/data/DataManagement.kt:83-99 | a missing or empty file gives no scores; any other file is read exactly when its rows decode, failing with the decode's error, and a successful read is the decoded scores rearranged into time order |
| DataManagement.AppendScore | app/src/main/java/com/minovepole/data/DataManagement.kt:63-75 | the file keeps all its rows, in order, and gains the score's row at the end; a missing file becomes that one row |
| DataManagement.AppendThenDecode | app/src/main/java/com/minovepole/data/DataManagement.kt:63-75 | appending a score whose time fits an Int to any readable file makes it read as its old scores followed by that score |
| DataManagement.SavedFileRows | app/src/main/java/com/minovepole/data/DataManagement.kt:63-75 | saving scores one by one from no file leaves exactly one row per score, in saving order |
| DataManagement.ReadBackSaved | app/src/main/java/com/minovepole/data/DataManagement.kt:83-99 | reading back the file of saved scores gives exactly those scores sorted by time |
| Decimal.IntToString | app/src/main/java/com/minovepole/data/DataManagement.kt:70 | the text starts with '-' exactly for a negative number, the rest is decimal digits denoting the magnitude, with no leading zero except in "0" |
| Decimal.ParseInt | app/src/main/java/com/minovepole/data/DataManagement.kt:94 | a parsed number always fits an Int |
| Decimal.ParseIntToString | app/src/main/java/com/minovepole/data/DataManagement.kt:70 | parsing the decimal text of an Int gives back that Int |
| Decimal.ParseIntRejectsNonDigits | app/src/main/java/com/minovepole/data/DataManagement.kt:94 | text with a character that is neither a digit nor a leading sign does not parse |
| Decimal.WrapIncrementStaysInt | app/src/main/java/com/minovepole/logic/GameViewModel.kt:58 | a tick keeps the time an Int, and is plain addition of 1 below the largest Int |
| LegacyDataManagement.AppendScore | app/src/main/java/com/example/minovepole/DataManagement.kt:25-45 | a missing or empty file gets the header row and then the score's row; otherwise the score's row is appended |
| LegacyDataManagement.DecodeRow | app/src/main/java/com/example/minovepole/DataManagement.kt:50-61 | a row is dropped exactly when it has fewer than three fields; a row of three or more fails exactly when its time or column 2 does not decode, with the time's error first; otherwise it is the score of field 0, the time, and column 2's option for both difficulties |
| LegacyDataManagement.DecodedDifficultiesEqual | app/src/main/java/com/example/minovepole/DataManagement.kt:53-54 | every decoded score has equal mine and size difficulties |
| LegacyDataManagement.ThreeFieldRowAccepted | app/src/main/java/com/example/minovepole/DataManagement.kt:51-55 | a row of exactly three fields is not dropped |
| LegacyDataManagement.RoundTripOnlyForEqualDifficulties | app/src/main/java/com/example/minovepole/DataManagement.kt:53-60 | a saved row reads back with its size difficulty replaced by its mine difficulty, so it reads back unchanged exactly when the two were equal |
| LegacyDataManagement.ColumnSlipExample | app/src/main/java/com/example/minovepole/DataManagement.kt:54 | a score saved at MEDIUM mines and HARD size reads back as MEDIUM and MEDIUM |
| LegacyDataManagement.DecodeRows | app/src/main/java/com/example/minovepole/DataManagement.kt:50-61 | a decode with the older row decoder succeeds exactly when no row fails, and then yields at most one score per row |
| LegacyDataManagement.DecodeOneRow | app/src/main/java/com/example/minovepole/DataManagement.kt:50-61 | a file of one row reads as nothing, as its score or as its error, by the older row decoder |
| LegacyDataManagement.DecodeSkipsShortRow | app/src/main/java/com/example/minovepole/DataManagement.kt:51-61 | a row with fewer than three fields is dropped: the file reads exactly as the file without it |
| LegacyDataManagement.DecodeRowsAppend | app/src/main/java/com/example/minovepole/DataManagement.kt:50-61 | the scores read from two parts of a file are those of the first part followed by those of the second, the first failure being the error of the whole |
| LegacyDataManagement.DecodeRowsFirstFailure | app/src/main/java/com/example/minovepole/DataManagement.kt:50-61 | a failed read carries the error of the first row that fails |
| LegacyDataManagement.ReadScores | app/src/main/java/com/example/minovepole/DataManagement.kt:47-63 | a missing or empty file gives no scores; any other file is read exactly when its rows decode by the older decoder, failing with that error, and a successful read is the decoded scores rearranged into time order |
| LegacyDataManagement.HeaderIsReadAsScore | app/src/main/java/com/example/minovepole/DataManagement.kt:30-37 | the header row is never skipped: reading the first saved file back fails or yields two scores, one decoded from the header |
| LegacyDataManagement.NumericHeaderFailsRead | app/src/main/java/com/example/minovepole/DataManagement.kt:30-37 | a header of resource ids (numbers, column 2 at least 3) makes reading back the first saved file fail with an index error |
| Grid.UncountedSquare | app/src/main/java/com/minovepole/logic/GameLogic.kt:18-26 | while fewer squares than all hold mines, some square holds none, so a draw can be accepted |
| Grid.FullBoardAllMines | app/src/main/java/com/minovepole/logic/GameLogic.kt:18-26 | a board with as many mines as squares is all mines, so no further draw is ever accepted and asking for more mines than squares never ends |
| Grid.AdjacentMinesAtMostEight | app/src/main/java/com/minovepole/logic/GameLogic.kt:44-57 | a square's number is at most 8 |
| Grid.NeighbourMineCounted | app/src/main/java/com/minovepole/logic/GameLogic.kt:51-55 | a square next to an in-bounds mine has a number of at least 1 |
| Grid.HitAfterMining | app/src/main/java/com/minovepole/logic/GameLogic.kt:51-55 | mining one square changes the inner test's result at exactly that square's offset, from 0 to 1 |
| Grid.MiningNeighbourAddsOne | app/src/main/java/com/minovepole/logic/GameLogic.kt:44-57 | each in-bounds mine next to a square counts exactly once: mining one unmined neighbour raises its number by exactly 1 |
| Grid.ZeroHasNoMineNeighbour | app/src/main/java/com/minovepole/logic/GameLogic.kt:36-62 | on a board with consistent numbers, a square numbered 0 has no mine among its in-bounds neighbours |
| Grid.ConsistentNumbersNonNegative | app/src/main/java/com/minovepole/logic/GameLogic.kt:36-62 | consistent numbers lie in 0..8 |
| Grid.WithNumbers | app/src/main/java/com/minovepole/logic/GameLogic.kt:36-62 | computing the numbers keeps every square's mine, click and flag, and leaves every number equal to the mines among its in-bounds neighbours, itself excluded |
| Grid.WithNumbersOfConsistent | app/src/main/java/com/minovepole/logic/GameLogic.kt:59 | recomputing consistent numbers changes nothing |
| Grid.WithNumbersIdempotent | app/src/main/java/com/example/minovepole/GameLogic.kt:43 | computing the numbers twice gives the board of computing them once |
| Grid.WithFlagToggled | app/src/main/java/com/minovepole/logic/GameViewModel.kt:143-147 | the copy flips the target's flag and shares every other square |
| Grid.ToggleTwiceRestores | app/src/main/java/com/minovepole/logic/GameViewModel.kt:139-149 | toggling the same flag twice restores the board |
| Grid.ToggleKeepsBoardFacts | app/src/main/java/com/minovepole/logic/GameViewModel.kt:141-148 | flagging a hidden square keeps the numbers consistent, no square both revealed and flagged, no revealed mine and a cleared board cleared |
| FloodFill.MarkClickedFacts | app/src/main/java/com/minovepole/logic/GameLogic.kt:94-98 | the copy with the target revealed has one hidden square fewer and changes nothing else |
| FloodFill.Reveal | app/src/main/java/com/minovepole/logic/GameLogic.kt:88-112 | out of range, revealed or flagged: unchanged; otherwise the target becomes revealed, with nothing else when its number is above 0; only hidden unflagged squares become revealed, mines, flags, numbers and shape kept; one hidden square fewer at least, which ends the recursion |
| FloodFill.Cascade | app/src/main/java/com/minovepole/logic/GameLogic.kt:104-109 | the neighbour loops only reveal hidden unflagged squares and never add a hidden one |
| FloodFill.CascadeColumn | app/src/main/java/com/minovepole/logic/GameLogic.kt:105-108 | one column of the neighbour loops only reveals hidden unflagged squares |
| FloodFill.RevealIdempotent | app/src/main/java/com/minovepole/logic/GameLogic.kt:92 | revealing the same square twice gives the board of revealing it once |
| FloodFill.RevealSupport | app/src/main/java/com/minovepole/logic/GameLogic.kt:101-109 | every square uncovered besides the target has an uncovered neighbour numbered 0 |
| FloodFill.RevealClosure | app/src/main/java/com/minovepole/logic/GameLogic.kt:101-109 | every square numbered 0 that is uncovered has all its in-bounds neighbours uncovered or flagged afterwards |
| FloodFill.RevealKeepsNumbers | app/src/main/java/com/minovepole/logic/GameLogic.kt:94-98 | revealing keeps the numbers consistent with the mines |
| FloodFill.RevealKeepsFlagsHidden | app/src/main/java/com/minovepole/logic/GameLogic.kt:92 | revealing never uncovers a flagged square |
| FloodFill.RevealSafe | app/src/main/java/com/minovepole/logic/GameLogic.kt:101-109 | with consistent numbers, the cascade uncovers no mine other than the clicked square |
| FloodFill.RevealKeepsNoMineClicked | app/src/main/java/com/minovepole/logic/GameLogic.kt:88-112 | clicking a square that is not a mine on a board with no revealed mine leaves no revealed mine |
| GameLogic.GenerateMines | app/src/main/java/com/minovepole/logic/GameLogic.kt:12-27 | with no more mines asked for than free squares, exactly that many are added (none for a count of 0 or less); each square is unchanged or turned from no mine into a mine with all else kept; the older copy, com/example/minovepole/GameLogic.kt:3-18, is the same code |
| GameLogic.PlaceMine | app/src/main/java/com/minovepole/logic/GameLogic.kt:19-25 | an iteration that counts: one square that held no mine becomes a mine, the mine count grows by one and no other square changes |
| GameLogic.NeighbourMines | app/src/main/java/com/minovepole/logic/GameLogic.kt:42-57 | the count is the number of mines among the square's in-bounds neighbours, itself excluded |
| GameLogic.CalculateSurrounding | app/src/main/java/com/minovepole/logic/GameLogic.kt:36-62 | the array afterwards holds the board with every number recomputed and nothing else changed; the older copy, com/example/minovepole/GameLogic.kt:20-46, is the same code |
| GameLogic.GenerateGrid | app/src/main/java/com/minovepole/logic/GameLogic.kt:72-77 | x columns of y squares, exactly count mines (none for a count of 0 or less), numbers consistent, nothing revealed or flagged; the older copy, com/example/minovepole/GameLogic.kt:48-53, is the same code |
| GameLogic.MinedGrid | app/src/main/java/com/minovepole/logic/GameLogic.kt:73-74 | a fresh x-by-y array of hidden, unflagged squares holding exactly count mines (none for a count of 0 or less) |
| GameLogic.RevealSquares | app/src/main/java/com/minovepole/logic/GameLogic.kt:88-112 | the loops and recursive calls compute exactly the reveal function |
| GameLogic.RevealColumn | app/src/main/java/com/minovepole/logic/GameLogic.kt:105-108 | the inner loop computes exactly one column of the cascade |
| Session.Columns | app/src/main/java/com/minovepole/logic/GameViewModel.kt:84-85 | the column count is even, and at least 4 exactly when the size difficulty is not negative; the older copy, com/example/minovepole/GameViewModel.kt:50, is the same formula |
| Session.Rows | app/src/main/java/com/minovepole/logic/GameViewModel.kt:86-87 | the row count is a multiple of 4, and at least 8 exactly when the size difficulty is not negative; the older copy, com/example/minovepole/GameViewModel.kt:51, is the same formula |
| Session.MineTotal | app/src/main/java/com/minovepole/logic/GameViewModel.kt:88-89 | the mine count is even, and at least 6 exactly when the two difficulties do not sum below 0; the older copy, com/example/minovepole/GameViewModel.kt:52, is the same formula |
| Session.SetupSteps | app/src/main/java/com/minovepole/logic/GameViewModel.kt:84-89 | the easiest setup is 4 columns, 8 rows and 6 mines; each size level adds 2 columns, 4 rows and 2 mines, each mine level 2 mines |
| Session.OrdinalsAreValidSetups | app/src/main/java/com/minovepole/logic/GameViewModel.kt:85-91 | for ordinals 0..2 the formula stays in range and gives fewer mines than squares, so generation ends |
| Session.AllSafeRevealed | app/src/main/java/com/minovepole/logic/GameViewModel.kt:121-125 | the scan finds no unrevealed square that is not a mine exactly when the board is cleared |
| Session.GameViewModel.constructor | app/src/main/java/com/minovepole/logic/GameViewModel.kt:28-48 | an empty board, time 0, no timer, not started, not over, not won |
| Session.GameViewModel.StartTimer | app/src/main/java/com/minovepole/logic/GameViewModel.kt:53-61 | afterwards one ticker runs; nothing else changes |
| Session.GameViewModel.StopTimer | app/src/main/java/com/minovepole/logic/GameViewModel.kt:66-68 | afterwards no ticker runs; nothing else changes |
| Session.GameViewModel.Tick | app/src/main/java/com/minovepole/logic/GameViewModel.kt:56-59 | a running timer adds one second, wrapping as a Kotlin Int; a stopped timer leaves the time alone |
| Session.GameViewModel.StartGame | app/src/main/java/com/minovepole/logic/GameViewModel.kt:76-99 | nothing changes once started; otherwise a new board of the formula's size and mine count, time 0, not over, not won, timer running, difficulties recorded |
| Session.GameViewModel.OnSquareClick | app/src/main/java/com/minovepole/logic/GameViewModel.kt:109-129 | nothing changes on a flag or after the end; otherwise the board is revealed, a mine means lost with the timer stopped, and otherwise won and over exactly when every safe square is revealed, the timer stopped then |
| Session.GameViewModel.OnClickHold | app/src/main/java/com/minovepole/logic/GameViewModel.kt:139-149 | nothing changes on a revealed square; otherwise only its flag flips, after the end too |
| Session.GameViewModel.OnSaveScoreClick | app/src/main/java/com/minovepole/logic/GameViewModel.kt:157-165 | the score carries the name, the time and the options at the recorded ordinals, and the file gets its row |
| Session.GameViewModel.RestartGame | app/src/main/java/com/minovepole/logic/GameViewModel.kt:173-176 | always starts a new game, whatever the latch was |
| LegacySession.GameViewModel.constructor | app/src/main/java/com/example/minovepole/GameViewModel.kt:16-30 | an empty board, time 0, no timer, not over, not won |
| LegacySession.GameViewModel.StartTimer | app/src/main/java/com/example/minovepole/GameViewModel.kt:32-40 | afterwards one ticker runs; nothing else changes |
| LegacySession.GameViewModel.StopTimer | app/src/main/java/com/example/minovepole/GameViewModel.kt:42-44 | afterwards no ticker runs; nothing else changes |
| LegacySession.GameViewModel.Tick | app/src/main/java/com/example/minovepole/GameViewModel.kt:35-38 | a running timer adds one second, wrapping as a Kotlin Int |
| LegacySession.GameViewModel.StartGame | app/src/main/java/com/example/minovepole/GameViewModel.kt:46-60 | every call builds a new board of the formula's size and resets time, outcome and timer |
| LegacySession.GameViewModel.OnSquareClick | app/src/main/java/com/example/minovepole/GameViewModel.kt:62-78 | as the current session: no-op on a flag or after the end, loss on a mine, win exactly on a cleared board |
| LegacySession.GameViewModel.OnClickHold | app/src/main/java/com/example/minovepole/GameViewModel.kt:80-88 | only an unrevealed target's flag flips |
| LegacySession.GameViewModel.SaveScore | app/src/main/java/com/example/minovepole/GameViewModel.kt:90-98 | the score carries the name, time and recorded options, and the file is written as the older save writes it |
| LeaderBoard.Selected | app/src/main/java/com/minovepole/ui/LeaderBoard.kt:68-70 | a score is listed exactly when it is loaded and has both selected difficulties; sorted input stays sorted |
| LeaderBoard.SelectedOne | app/src/main/java/com/minovepole/ui/LeaderBoard.kt:68-70 | a single score is listed exactly when both its difficulties are the selected ones |
| LeaderBoard.SelectedAppend | app/src/main/java/com/minovepole/ui/LeaderBoard.kt:68-70 | the scores listed from two lists one after the other are those listed from the first, then those from the second: order and repetitions are kept |
| LeaderBoard.SelectedIdempotent | app/src/main/java/com/minovepole/ui/LeaderBoard.kt:68-70 | filtering again by the same selection changes nothing |
| LeaderBoard.SelectedWithinScores | app/src/main/java/com/minovepole/ui/LeaderBoard.kt:68-70 | the filter neither repeats nor invents a score |
| LeaderBoard.LeaderBoardViewModel.constructor | app/src/main/java/com/minovepole/logic/LeaderBoardViewModel.kt:19-27 | both selections MEDIUM, no scores loaded |
| LeaderBoard.LeaderBoardViewModel.SelectedScores | app/src/main/java/com/minovepole/ui/LeaderBoard.kt:68-70 | the listed scores are the loaded ones at the selected difficulties |
| LeaderBoard.LeaderBoardViewModel.SetScores | app/src/main/java/com/minovepole/logic/LeaderBoardViewModel.kt:35-37 | the list is replaced wholesale, both selections kept |
| LeaderBoard.LeaderBoardViewModel.ClearScores | app/src/main/java/com/minovepole/logic/LeaderBoardViewModel.kt:42-44 | the list is emptied, so nothing is listed; both selections kept |
| LeaderBoard.LeaderBoardViewModel.OnMineDifficultyChanged | app/src/main/java/com/minovepole/logic/LeaderBoardViewModel.kt:51-53 | only the mine selection changes |
| LeaderBoard.LeaderBoardViewModel.OnSizeDifficultyChanged | app/src/main/java/com/minovepole/logic/LeaderBoardViewModel.kt:60-62 | only the size selection changes |
| DifficultySelect.DifficultySelectViewModel.constructor | app/src/main/java/com/minovepole/logic/DifficultySelectViewModel.kt:17-21 | both selections MEDIUM |
| DifficultySelect.DifficultySelectViewModel.OnMineDifficultyChange | app/src/main/java/com/minovepole/logic/DifficultySelectViewModel.kt:29-31 | the mine selection becomes the option, the size selection is kept; so the last write wins and a repeated write changes nothing |
| DifficultySelect.DifficultySelectViewModel.OnSizeDifficultyChange | app/src/main/java/com/minovepole/logic/DifficultySelectViewModel.kt:38-40 | the size selection becomes the option, the mine selection is kept |

Both sessions keep the class invariant `Valid()` through every action:
- The board is rectangular, with numbers consistent with its mines.
- No square is both revealed and flagged.
- The time fits an Int.
- A win implies an ended game on a cleared board.
- No mine is revealed unless the game was lost.

## Left out

- File and CSV I/O. This covers opening, appending, existence and length checks, `clearScores` and `generateTestScores`. A file is an `Option<seq<Row>>`, a missing file is `None`, and CSV quoting belongs to the library.
- The CSV library's own checks on row lengths. The model accepts rows of any length.
- The coroutine ticker and its one-second delay. They are a `timerActive` flag plus an explicit `Tick`, so concurrency and timing are not modelled.
- True randomness. Each accepted draw of the rejection loop is a nondeterministic choice of a square without a mine; rejected draws change nothing and are not modelled.
- Uniformity of the mine placement. It depends on the random source and is not modelled.
- `String.toInt` on non-ASCII digits, which Kotlin also accepts. Only '0'..'9' count as digits here.
- The Compose UI, navigation, sound and activities. Only the leaderboard's filter is modelled, as `LeaderBoard.Selected`.
- Session.ValidSetup: requires that no step of the size and mine formula leaves the 32-bit range, so the wrap-around of those multiplications is not modelled.
- GameLogic.GenerateMines: requires at least one column, because the source reads `grid[0].size` first and throws on an empty grid. It also requires, when count is above 0, no more mines than free squares. With a column of no squares, `(0 until 0).random()` throws NoSuchElementException. With more mines than free squares, the loop never returns. This last case is stated by `Grid.FullBoardAllMines` instead of a diverging method.
- GameLogic.RevealSquares: requires a rectangular board. The range test reads the first column's length and then indexes the target column, which on a ragged board could fail. The source only builds boards of equal columns.
- GameLogic.NeighbourMines and GameLogic.RevealColumn: the two neighbour loops of `calculateSurrounding`, and the inner neighbour loop of `revealSquares`, are separate methods here. Their loops and continue conditions are otherwise as written.
- GameLogic.PlaceMine and GameLogic.MinedGrid: the body of the drawing loop of `generateMines` and the first two statements of `generateGrid` are separate methods here. What they do is otherwise as written.
- The older package's own `Square` and `revealSquares` are not part of this model. Its session uses the current package's, which its calls match.
- Session.GameViewModel.OnSquareClick, Session.GameViewModel.OnClickHold, LegacySession.GameViewModel.OnSquareClick and LegacySession.GameViewModel.OnClickHold: indexing outside the board throws in the source, so in-range coordinates are a precondition.
- Session.GameViewModel.OnSaveScoreClick and LegacySession.GameViewModel.SaveScore: require both recorded difficulties in 0..2. The source indexes `DifficultyOption.entries` with them (com/minovepole/logic/GameViewModel.kt:161-162, com/example/minovepole/GameViewModel.kt:94-95) and throws outside that range.

## Findings

| source | as written | input that shows it | evidently intended | confidence | as-written member | corrected member |
|---|---|---|---|---|---|---|
| app/src/main/java/com/example/minovepole/DataManagement.kt:54 | the size difficulty is read from column 2, the mine difficulty's column | the row saved for `Score("Wazzdakka", 35, MEDIUM, HARD)` reads back as MEDIUM, MEDIUM | read column 3, so that every saved score reads back unchanged | high, not executed | LegacyDataManagement.ColumnSlipExample | DataManagement.RowRoundTrip |
| app/src/main/java/com/example/minovepole/DataManagement.kt:30-37 | the first save writes a header of resource ids, which the reader never skips | a header whose columns 1 and 2 are numbers such as 2131623975: reading back after the first save fails with an index error | no header, or a reader that skips it, so that saved scores read back | medium, not executed | LegacyDataManagement.NumericHeaderFailsRead | DataManagement.ReadBackSaved |
