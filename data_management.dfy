/**
 * The record types of the game and the pure half of score persistence:
 * the row a saved score becomes, the decoding of the rows of the score file
 * and the ordering of the leaderboard. A file is a sequence of rows, a row a
 * sequence of field strings; the CSV quoting itself belongs to the library.
 */
module DataManagement {
  import opened Wrappers
  import opened Decimal

  /** The three difficulty levels, used both for mine density and board size. */
  datatype DifficultyOption = EASY | MEDIUM | HARD {
    /** The position of the entry in its declaration. */
    function Ordinal(): nat {
      match this
      case EASY => 0
      case MEDIUM => 1
      case HARD => 2
    }
  }

  /** `DifficultyOption.entries`: the entries in declaration order. */
  function Entries(): (e: seq<DifficultyOption>)
    ensures |e| == 3
    ensures forall k :: 0 <= k < 3 ==> e[k].Ordinal() == k
  {
    [EASY, MEDIUM, HARD]
  }

  /** Every option is an entry, found at the index its ordinal names. */
  lemma EntriesAreAllOptions(d: DifficultyOption)
    ensures d.Ordinal() < 3 && Entries()[d.Ordinal()] == d
  {
  }

  /** A leaderboard entry: who, how many seconds, at which difficulties. */
  datatype Score = Score(name: string, time: int, mineDifficulty: DifficultyOption, sizeDifficulty: DifficultyOption)

  /** One square of the minefield; `number` is the count of adjacent mines. */
  datatype Square = Square(isMine: bool, isClicked: bool, isFlagged: bool, number: int)

  /** `Square()` with every parameter at its default value. */
  function DefaultSquare(): (s: Square)
    ensures !s.isMine && !s.isClicked && !s.isFlagged && s.number == 0
  {
    Square(false, false, false, 0)
  }

  type Row = seq<string>

  /**
   * The row `saveScore` appends for a score: four fields, the name, the time
   * as decimal text, and each difficulty as the single digit of its ordinal.
   */
  function EncodeRow(score: Score): (row: Row)
    ensures |row| == 4 && row[0] == score.name && row[1] == IntToString(score.time)
    ensures row[2] == [DigitChar(score.mineDifficulty.Ordinal())]
    ensures row[3] == [DigitChar(score.sizeDifficulty.Ordinal())]
  {
    [score.name,
     IntToString(score.time),
     IntToString(score.mineDifficulty.Ordinal()),
     IntToString(score.sizeDifficulty.Ordinal())]
  }

  /** The exceptions decoding can raise: `toInt` and `entries[...]`. */
  datatype DecodeError = NumberFormat | IndexOutOfBounds

  /** What `mapNotNull` makes of one row: dropped, a score, or an exception. */
  datatype RowOutcome = Skipped | Parsed(score: Score) | Failed(error: DecodeError)

  /** `DifficultyOption.entries[field.toInt()]`. */
  function OptionAt(field: string): (r: Result<DifficultyOption, DecodeError>)
    ensures r.Success? <==> ParseInt(field).Some? && 0 <= ParseInt(field).value < 3
    ensures r.Success? ==> ParseInt(field) == Some(r.value.Ordinal())
    ensures r.Failure? ==> r.error == (if ParseInt(field).None? then NumberFormat else IndexOutOfBounds)
  {
    match ParseInt(field)
    case None => Failure(NumberFormat)
    case Some(k) => if 0 <= k < 3 then Success(Entries()[k]) else Failure(IndexOutOfBounds)
  }

  /** The lambda of `readScores`: fields 0 to 3 are name, time, mine ordinal, size ordinal. */
  function DecodeRow(row: Row): (o: RowOutcome)
    ensures o.Skipped? <==> |row| < 4
    ensures o.Parsed? ==> o.score.name == row[0] && ParseInt(row[1]) == Some(o.score.time)
                          && ParseInt(row[2]) == Some(o.score.mineDifficulty.Ordinal())
                          && ParseInt(row[3]) == Some(o.score.sizeDifficulty.Ordinal())
    ensures |row| >= 4 ==> (o.Failed? <==> ParseInt(row[1]).None? || OptionAt(row[2]).Failure? || OptionAt(row[3]).Failure?)
    ensures o.Failed? ==> o.error == (if ParseInt(row[1]).None? then NumberFormat
                                      else if OptionAt(row[2]).Failure? then OptionAt(row[2]).error
                                      else OptionAt(row[3]).error)
  {
    if |row| < 4 then Skipped
    else
      match ParseInt(row[1])
      case None => Failed(NumberFormat)
      case Some(time) =>
        match OptionAt(row[2])
        case Failure(e) => Failed(e)
        case Success(mine) =>
          match OptionAt(row[3])
          case Failure(e) => Failed(e)
          case Success(size) => Parsed(Score(row[0], time, mine, size))
  }

  /** A score whose time fits an `Int` is read back from its row unchanged. */
  lemma RowRoundTrip(score: Score)
    requires IsInt(score.time)
    ensures DecodeRow(EncodeRow(score)) == Parsed(score)
  {
    ParseIntToString(score.time);
    ParseIntToString(score.mineDifficulty.Ordinal());
    ParseIntToString(score.sizeDifficulty.Ordinal());
  }

  /** `mapNotNull` over the rows: dropped rows vanish, the first exception aborts. */
  function DecodeRows(rows: seq<Row>): (r: Result<seq<Score>, DecodeError>)
    ensures r.Success? ==> |r.value| <= |rows|
    ensures r.Success? <==> forall k :: 0 <= k < |rows| ==> !DecodeRow(rows[k]).Failed?
  {
    if rows == [] then Success([])
    else
      match DecodeRow(rows[0])
      case Skipped => DecodeRows(rows[1..])
      case Failed(e) => Failure(e)
      case Parsed(s) =>
        match DecodeRows(rows[1..])
        case Failure(e) => Failure(e)
        case Success(rest) => Success([s] + rest)
  }

  /** A file of one row: nothing, its score, or its exception. */
  lemma DecodeOneRow(row: Row)
    ensures DecodeRows([row]) == match DecodeRow(row)
                                 case Skipped => Success([])
                                 case Parsed(s) => Success([s])
                                 case Failed(e) => Failure(e)
  {
    assert [row][1..] == [];
    if DecodeRow(row).Parsed? {
      assert [DecodeRow(row).score] + [] == [DecodeRow(row).score];
    }
  }

  /** A row with fewer than four fields is dropped and the rest is read as if it were absent. */
  lemma DecodeSkipsShortRow(row: Row, rows: seq<Row>)
    requires |row| < 4
    ensures DecodeRows([row] + rows) == DecodeRows(rows)
  {
    assert ([row] + rows)[1..] == rows;
  }

  /** One row's outcome in front of what the rest of the file decodes to. */
  function Prepend(o: RowOutcome, rest: Result<seq<Score>, DecodeError>): Result<seq<Score>, DecodeError> {
    match o
    case Skipped => rest
    case Failed(e) => Failure(e)
    case Parsed(s) =>
      match rest
      case Failure(e) => Failure(e)
      case Success(v) => Success([s] + v)
  }

  /** Two parts read one after the other: the first failure wins, otherwise the scores in order. */
  function Join(x: Result<seq<Score>, DecodeError>, y: Result<seq<Score>, DecodeError>): Result<seq<Score>, DecodeError> {
    match x
    case Failure(e) => Failure(e)
    case Success(v) =>
      match y
      case Failure(e) => Failure(e)
      case Success(w) => Success(v + w)
  }

  lemma PrependJoin(o: RowOutcome, x: Result<seq<Score>, DecodeError>, y: Result<seq<Score>, DecodeError>)
    ensures Prepend(o, Join(x, y)) == Join(Prepend(o, x), y)
  {
    if o.Parsed? && x.Success? && y.Success? {
      assert [o.score] + (x.value + y.value) == ([o.score] + x.value) + y.value;
    }
  }

  lemma DecodeRowsUnfold(rows: seq<Row>)
    requires rows != []
    ensures DecodeRows(rows) == Prepend(DecodeRow(rows[0]), DecodeRows(rows[1..]))
  {
  }

  /**
   * Decoding distributes over the parts of a file: the scores of the whole
   * are those of the first part followed by those of the second, and the
   * exception of the first failing part is the one raised.
   */
  lemma {:induction false} DecodeRowsAppend(a: seq<Row>, b: seq<Row>)
    ensures DecodeRows(a + b) == Join(DecodeRows(a), DecodeRows(b))
    decreases |a|
  {
    if a == [] {
      assert a + b == b;
      if DecodeRows(b).Success? {
        assert [] + DecodeRows(b).value == DecodeRows(b).value;
      }
    } else {
      assert (a + b)[0] == a[0];
      assert (a + b)[1..] == a[1..] + b;
      DecodeRowsAppend(a[1..], b);
      DecodeRowsUnfold(a);
      DecodeRowsUnfold(a + b);
      PrependJoin(DecodeRow(a[0]), DecodeRows(a[1..]), DecodeRows(b));
    }
  }

  /** A failed read raises the exception of the first row that fails, as `mapNotNull` stops there. */
  lemma {:induction false} DecodeRowsFirstFailure(rows: seq<Row>)
    requires DecodeRows(rows).Failure?
    ensures exists k :: 0 <= k < |rows| && DecodeRow(rows[k]) == Failed(DecodeRows(rows).error)
                        && forall l :: 0 <= l < k ==> !DecodeRow(rows[l]).Failed?
    decreases |rows|
  {
    var e := DecodeRows(rows).error;
    if DecodeRow(rows[0]).Failed? {
      assert DecodeRow(rows[0]) == Failed(e);
    } else {
      DecodeRowsFirstFailure(rows[1..]);
      var k :| 0 <= k < |rows[1..]| && DecodeRow(rows[1..][k]) == Failed(e)
               && forall l :: 0 <= l < k ==> !DecodeRow(rows[1..][l]).Failed?;
      assert rows[k + 1] == rows[1..][k];
      forall l | 0 <= l < k + 1
        ensures !DecodeRow(rows[l]).Failed?
      {
        if l > 0 {
          assert rows[l] == rows[1..][l - 1];
        }
      }
    }
  }

  /** The rows of a file in which each score was saved in turn. */
  function EncodeAll(scores: seq<Score>): (rows: seq<Row>)
    ensures |rows| == |scores|
  {
    seq(|scores|, k requires 0 <= k < |scores| => EncodeRow(scores[k]))
  }

  predicate AllTimesInt(scores: seq<Score>) {
    forall k :: 0 <= k < |scores| ==> IsInt(scores[k].time)
  }

  lemma {:induction false} DecodeEncodeAll(scores: seq<Score>)
    requires AllTimesInt(scores)
    ensures DecodeRows(EncodeAll(scores)) == Success(scores)
    decreases |scores|
  {
    if scores != [] {
      var rows := EncodeAll(scores);
      assert rows[0] == EncodeRow(scores[0]);
      RowRoundTrip(scores[0]);
      assert rows[1..] == EncodeAll(scores[1..]);
      assert AllTimesInt(scores[1..]) by {
        forall k | 0 <= k < |scores[1..]|
          ensures IsInt(scores[1..][k].time)
        {
          assert scores[1..][k] == scores[k + 1];
        }
      }
      DecodeEncodeAll(scores[1..]);
      assert [scores[0]] + scores[1..] == scores;
    }
  }

  predicate SortedByTime(s: seq<Score>) {
    forall i, j :: 0 <= i < j < |s| ==> s[i].time <= s[j].time
  }

  /** The scores of `s` whose time is `t`, in their order in `s`. */
  function WithTime(s: seq<Score>, t: int): seq<Score> {
    if s == [] then []
    else (if s[0].time == t then [s[0]] else []) + WithTime(s[1..], t)
  }

  /** A score no slower than the head of a sorted list can go in front of it. */
  lemma SortedCons(a: Score, s: seq<Score>)
    requires SortedByTime(s) && (s == [] || a.time <= s[0].time)
    ensures SortedByTime([a] + s)
  {
    forall i, j | 0 <= i < j < |[a] + s|
      ensures ([a] + s)[i].time <= ([a] + s)[j].time
    {
      if i > 0 {
        assert ([a] + s)[i] == s[i - 1] && ([a] + s)[j] == s[j - 1];
      } else if j > 1 {
        assert s[0].time <= s[j - 1].time;
      }
    }
  }

  lemma SortedTail(s: seq<Score>)
    requires s != [] && SortedByTime(s)
    ensures SortedByTime(s[1..])
  {
    forall i, j | 0 <= i < j < |s[1..]|
      ensures s[1..][i].time <= s[1..][j].time
    {
      assert s[1..][i] == s[i + 1] && s[1..][j] == s[j + 1];
    }
  }

  /** The step of `InsertByTime` that passes the head of `s`: the head stays in front of the rest. */
  lemma InsertBehindHead(x: Score, s: seq<Score>, rest: seq<Score>)
    requires s != [] && x.time > s[0].time && rest != []
    requires rest[0] == x || (|s| > 1 && rest[0] == s[1])
    requires SortedByTime(s[1..]) ==> SortedByTime(rest)
    ensures SortedByTime(s) ==> SortedByTime([s[0]] + rest)
  {
    if SortedByTime(s) {
      SortedTail(s);
      assert |s| > 1 ==> s[0].time <= s[1].time;
      SortedCons(s[0], rest);
    }
  }

  /** Inserts `x` before the first score of `s` that is not faster than it. */
  function InsertByTime(x: Score, s: seq<Score>): (r: seq<Score>)
    ensures SortedByTime(s) ==> SortedByTime(r)
    ensures |r| == |s| + 1 && r[0] == (if s == [] || x.time <= s[0].time then x else s[0])
    ensures multiset(r) == multiset(s) + multiset{x}
  {
    if s == [] || x.time <= s[0].time then
      assert SortedByTime(s) ==> SortedByTime([x] + s) by {
        if SortedByTime(s) {
          SortedCons(x, s);
        }
      }
      [x] + s
    else
      var rest := InsertByTime(x, s[1..]);
      InsertBehindHead(x, s, rest);
      assert s == [s[0]] + s[1..];
      [s[0]] + rest
  }

  /** `sortedBy { it.time }`: a stable sort, ascending by time. */
  function SortByTime(s: seq<Score>): (r: seq<Score>)
    ensures SortedByTime(r)
    ensures multiset(r) == multiset(s)
  {
    if s == [] then []
    else
      assert s == [s[0]] + s[1..];
      InsertByTime(s[0], SortByTime(s[1..]))
  }

  /** `[a]` when `a` has time `t`, otherwise nothing. */
  function Front(a: Score, t: int): seq<Score> {
    if a.time == t then [a] else []
  }

  /** Filtering by time distributes over putting one score in front. */
  lemma WithTimeCons(a: Score, s: seq<Score>, t: int)
    ensures WithTime([a] + s, t) == Front(a, t) + WithTime(s, t)
  {
    assert ([a] + s)[1..] == s;
  }

  /** Two scores of different times never both pass the filter, so their order does not matter. */
  lemma FrontsCommute(a: Score, b: Score, w: seq<Score>, t: int)
    requires a.time != b.time
    ensures Front(a, t) + (Front(b, t) + w) == Front(b, t) + (Front(a, t) + w)
  {
  }

  /** The inserted score comes after every score of the same time that it passes. */
  lemma {:induction false} InsertByTimeStable(x: Score, s: seq<Score>, t: int)
    ensures WithTime(InsertByTime(x, s), t) == WithTime([x] + s, t)
    decreases |s|
  {
    if s != [] && x.time > s[0].time {
      var tail := s[1..];
      var rest := InsertByTime(x, tail);
      assert InsertByTime(x, s) == [s[0]] + rest;
      assert [s[0]] + tail == s;
      InsertByTimeStable(x, tail, t);
      WithTimeCons(s[0], rest, t);
      WithTimeCons(x, tail, t);
      WithTimeCons(x, s, t);
      WithTimeCons(s[0], tail, t);
      FrontsCommute(s[0], x, WithTime(tail, t), t);
    }
  }

  /** Sorting keeps the relative order of scores with equal times. */
  lemma {:induction false} SortByTimeStable(s: seq<Score>, t: int)
    ensures WithTime(SortByTime(s), t) == WithTime(s, t)
    decreases |s|
  {
    if s != [] {
      SortByTimeStable(s[1..], t);
      InsertByTimeStable(s[0], SortByTime(s[1..]), t);
      assert ([s[0]] + SortByTime(s[1..]))[1..] == SortByTime(s[1..]);
    }
  }

  /**
   * `readScores`: a missing or empty file gives no scores; otherwise the rows
   * are decoded and the scores sorted by time.
   */
  function ReadScores(file: Option<seq<Row>>): (r: Result<seq<Score>, DecodeError>)
    ensures (file.None? || file.value == []) ==> r == Success([])
    ensures r.Success? ==> SortedByTime(r.value)
    ensures file.Some? && file.value != [] ==>
              (r.Success? <==> DecodeRows(file.value).Success?)
              && (r.Failure? ==> r.error == DecodeRows(file.value).error)
              && (r.Success? ==> multiset(r.value) == multiset(DecodeRows(file.value).value))
  {
    if file.None? || file.value == [] then Success([])
    else
      match DecodeRows(file.value)
      case Failure(e) => Failure(e)
      case Success(scores) => Success(SortByTime(scores))
  }

  /** `saveScore`: appends the score's row, creating the file when missing. */
  function AppendScore(file: Option<seq<Row>>, score: Score): (rows: seq<Row>)
    ensures var before := if file.None? then [] else file.value;
            |rows| == |before| + 1 && rows[..|before|] == before && rows[|before|] == EncodeRow(score)
  {
    (if file.None? then [] else file.value) + [EncodeRow(score)]
  }

  /**
   * Appending a score to any readable file, whatever rows it already holds,
   * makes the file read back with that score added.
   */
  lemma AppendThenDecode(file: Option<seq<Row>>, score: Score)
    requires IsInt(score.time)
    requires file.Some? ==> DecodeRows(file.value).Success?
    ensures DecodeRows(AppendScore(file, score))
            == Success((if file.None? then [] else DecodeRows(file.value).value) + [score])
  {
    var before := if file.None? then [] else file.value;
    DecodeRowsAppend(before, [EncodeRow(score)]);
    DecodeOneRow(EncodeRow(score));
    RowRoundTrip(score);
  }

  /** The file after saving each of `scores` in turn, starting with no file. */
  function SavedFile(scores: seq<Score>): Option<seq<Row>> {
    if scores == [] then None
    else Some(AppendScore(SavedFile(scores[..|scores| - 1]), scores[|scores| - 1]))
  }

  /** The rows of a list of scores are those of all but the last, then the last one's. */
  lemma EncodeAllSnoc(scores: seq<Score>)
    requires scores != []
    ensures EncodeAll(scores) == EncodeAll(scores[..|scores| - 1]) + [EncodeRow(scores[|scores| - 1])]
  {
    var n := |scores| - 1;
    forall k | 0 <= k < |scores|
      ensures EncodeAll(scores)[k] == (EncodeAll(scores[..n]) + [EncodeRow(scores[n])])[k]
    {
      if k < n {
        assert scores[..n][k] == scores[k];
      }
    }
  }

  lemma {:induction false} SavedFileRows(scores: seq<Score>)
    ensures scores != [] ==> SavedFile(scores) == Some(EncodeAll(scores))
    decreases |scores|
  {
    if |scores| > 1 {
      var n := |scores| - 1;
      SavedFileRows(scores[..n]);
      assert SavedFile(scores) == Some(AppendScore(Some(EncodeAll(scores[..n])), scores[n]));
      EncodeAllSnoc(scores);
    } else if |scores| == 1 {
      assert scores[..0] == [];
      assert SavedFile(scores[..0]) == None;
      assert AppendScore(None, scores[0]) == [EncodeRow(scores[0])];
      assert EncodeAll(scores) == [EncodeRow(scores[0])];
    }
  }

  /** Reading back a file of saved scores gives exactly those scores, sorted by time. */
  lemma ReadBackSaved(scores: seq<Score>)
    requires AllTimesInt(scores)
    ensures ReadScores(SavedFile(scores)) == Success(SortByTime(scores))
  {
    if scores != [] {
      SavedFileRows(scores);
      DecodeEncodeAll(scores);
    }
  }
}
