/**
 * The older score persistence of the `com.example` package. It writes a
 * header row before the first score, and its decoder reads column 2 for both
 * difficulties. DifficultyOption, Score, the data row and the sort are the
 * same as in the current package.
 */
module LegacyDataManagement {
  import opened Wrappers
  import opened Decimal
  import opened DataManagement

  /**
   * `saveScore`: when the file is missing or empty, the header row is written
   * first and then the score's row; otherwise the row is appended.
   */
  function AppendScore(file: Option<seq<Row>>, header: Row, score: Score): (rows: seq<Row>)
    ensures file.Some? && file.value != [] ==> rows == file.value + [EncodeRow(score)]
    ensures (file.None? || file.value == []) ==> rows == [header, EncodeRow(score)]
  {
    if file.None? || file.value == [] then [header, EncodeRow(score)]
    else file.value + [EncodeRow(score)]
  }

  /**
   * The lambda of the older `readScores`: the size difficulty is read from
   * column 2, the column of the mine difficulty, so column 3 is never looked at.
   */
  function DecodeRow(row: Row): (o: RowOutcome)
    ensures o.Skipped? <==> |row| < 3
    ensures |row| >= 3 ==> (o.Failed? <==> ParseInt(row[1]).None? || OptionAt(row[2]).Failure?)
    ensures o.Failed? ==> o.error == (if ParseInt(row[1]).None? then NumberFormat else OptionAt(row[2]).error)
    ensures o.Parsed? ==> o.score == Score(row[0], ParseInt(row[1]).value, OptionAt(row[2]).value, OptionAt(row[2]).value)
  {
    if |row| < 3 then Skipped
    else
      match ParseInt(row[1])
      case None => Failed(NumberFormat)
      case Some(time) =>
        match OptionAt(row[2])
        case Failure(e) => Failed(e)
        case Success(mine) =>
          match OptionAt(row[2])
          case Failure(e) => Failed(e)
          case Success(size) => Parsed(Score(row[0], time, mine, size))
  }

  /** Every score the older decoder produces has equal difficulties. */
  lemma DecodedDifficultiesEqual(row: Row)
    requires DecodeRow(row).Parsed?
    ensures DecodeRow(row).score.sizeDifficulty == DecodeRow(row).score.mineDifficulty
  {
  }

  /** A row of only three fields is accepted when its time and column 2 decode. */
  lemma ThreeFieldRowAccepted(row: Row)
    requires |row| == 3 && ParseInt(row[1]).Some? && OptionAt(row[2]).Success?
    ensures DecodeRow(row) == Parsed(Score(row[0], ParseInt(row[1]).value, OptionAt(row[2]).value, OptionAt(row[2]).value))
  {
  }

  /** The row written for a score reads back as that score exactly when its two difficulties agree. */
  lemma RoundTripOnlyForEqualDifficulties(score: Score)
    requires IsInt(score.time)
    ensures DecodeRow(EncodeRow(score)) == Parsed(score.(sizeDifficulty := score.mineDifficulty))
    ensures DecodeRow(EncodeRow(score)) == Parsed(score) <==> score.mineDifficulty == score.sizeDifficulty
  {
    ParseIntToString(score.time);
    ParseIntToString(score.mineDifficulty.Ordinal());
  }

  /** One of the source's own test scores: saved at HARD size, read back at MEDIUM. */
  lemma ColumnSlipExample()
    ensures DecodeRow(EncodeRow(Score("Wazzdakka", 35, MEDIUM, HARD))) == Parsed(Score("Wazzdakka", 35, MEDIUM, MEDIUM))
  {
    RoundTripOnlyForEqualDifficulties(Score("Wazzdakka", 35, MEDIUM, HARD));
  }

  /** `mapNotNull` over the rows with the older row decoder. */
  function DecodeRows(rows: seq<Row>): (r: Result<seq<Score>, DecodeError>)
    ensures r.Success? ==> |r.value| <= |rows|
    ensures r.Success? <==> forall k :: 0 <= k < |rows| ==> !DecodeRow(rows[k]).Failed?
  {
    if rows == [] then Success([])
    else
      match DecodeRow(rows[0])
      case Skipped => DecodeRows(rows[1..])
      case Failed(e) => Failure(e)
      case Parsed(s) =>
        match DecodeRows(rows[1..])
        case Failure(e) => Failure(e)
        case Success(rest) => Success([s] + rest)
  }

  /** A file of one row: nothing, its score, or its exception. */
  lemma DecodeOneRow(row: Row)
    ensures DecodeRows([row]) == match DecodeRow(row)
                                 case Skipped => Success([])
                                 case Parsed(s) => Success([s])
                                 case Failed(e) => Failure(e)
  {
    assert [row][1..] == [];
    if DecodeRow(row).Parsed? {
      assert [DecodeRow(row).score] + [] == [DecodeRow(row).score];
    }
  }

  /** A row with fewer than three fields is dropped and the rest is read as if it were absent. */
  lemma DecodeSkipsShortRow(row: Row, rows: seq<Row>)
    requires |row| < 3
    ensures DecodeRows([row] + rows) == DecodeRows(rows)
  {
    assert ([row] + rows)[1..] == rows;
  }

  lemma DecodeRowsUnfold(rows: seq<Row>)
    requires rows != []
    ensures DecodeRows(rows) == Prepend(DecodeRow(rows[0]), DecodeRows(rows[1..]))
  {
  }

  /** Decoding distributes over the parts of a file, as with the current decoder. */
  lemma {:induction false} DecodeRowsAppend(a: seq<Row>, b: seq<Row>)
    ensures DecodeRows(a + b) == Join(DecodeRows(a), DecodeRows(b))
    decreases |a|
  {
    if a == [] {
      assert a + b == b;
      if DecodeRows(b).Success? {
        assert [] + DecodeRows(b).value == DecodeRows(b).value;
      }
    } else {
      assert (a + b)[0] == a[0];
      assert (a + b)[1..] == a[1..] + b;
      DecodeRowsAppend(a[1..], b);
      DecodeRowsUnfold(a);
      DecodeRowsUnfold(a + b);
      PrependJoin(DecodeRow(a[0]), DecodeRows(a[1..]), DecodeRows(b));
    }
  }

  /** A failed read raises the exception of the first row that fails. */
  lemma {:induction false} DecodeRowsFirstFailure(rows: seq<Row>)
    requires DecodeRows(rows).Failure?
    ensures exists k :: 0 <= k < |rows| && DecodeRow(rows[k]) == Failed(DecodeRows(rows).error)
                        && forall l :: 0 <= l < k ==> !DecodeRow(rows[l]).Failed?
    decreases |rows|
  {
    var e := DecodeRows(rows).error;
    if DecodeRow(rows[0]).Failed? {
      assert DecodeRow(rows[0]) == Failed(e);
    } else {
      DecodeRowsFirstFailure(rows[1..]);
      var k :| 0 <= k < |rows[1..]| && DecodeRow(rows[1..][k]) == Failed(e)
               && forall l :: 0 <= l < k ==> !DecodeRow(rows[1..][l]).Failed?;
      assert rows[k + 1] == rows[1..][k];
      forall l | 0 <= l < k + 1
        ensures !DecodeRow(rows[l]).Failed?
      {
        if l > 0 {
          assert rows[l] == rows[1..][l - 1];
        }
      }
    }
  }

  /** The older `readScores`: like the current one, with the older row decoder. */
  function ReadScores(file: Option<seq<Row>>): (r: Result<seq<Score>, DecodeError>)
    ensures (file.None? || file.value == []) ==> r == Success([])
    ensures r.Success? ==> SortedByTime(r.value)
    ensures file.Some? && file.value != [] ==>
              (r.Success? <==> DecodeRows(file.value).Success?)
              && (r.Failure? ==> r.error == DecodeRows(file.value).error)
              && (r.Success? ==> multiset(r.value) == multiset(DecodeRows(file.value).value))
  {
    if file.None? || file.value == [] then Success([])
    else
      match DecodeRows(file.value)
      case Failure(e) => Failure(e)
      case Success(scores) => Success(SortByTime(scores))
  }

  lemma DecodeTwoRows(a: Row, b: Row)
    requires DecodeRow(a).Parsed? && DecodeRow(b).Parsed?
    ensures DecodeRows([a, b]) == Success([DecodeRow(a).score, DecodeRow(b).score])
  {
    var rows := [a, b];
    assert rows[1..] == [b] && rows[1..][1..] == [];
    assert DecodeRows(rows[1..][1..]) == Success([]);
    assert DecodeRows([b]) == Success([DecodeRow(b).score] + []);
    assert [DecodeRow(b).score] + [] == [DecodeRow(b).score];
    assert [DecodeRow(a).score] + [DecodeRow(b).score] == [DecodeRow(a).score, DecodeRow(b).score];
  }

  /**
   * The header row is never dropped: reading back the file of the first save
   * either fails or yields two scores, one of them decoded from the header.
   */
  lemma HeaderIsReadAsScore(header: Row, score: Score)
    requires |header| == 4 && IsInt(score.time)
    ensures var r := ReadScores(Some(AppendScore(None, header, score)));
            r.Failure? || (|r.value| == 2 && DecodeRow(header).Parsed? && DecodeRow(header).score in r.value)
  {
    RoundTripOnlyForEqualDifficulties(score);
    if DecodeRow(header).Parsed? {
      DecodeTwoRows(header, EncodeRow(score));
      var decoded := [DecodeRow(header).score, DecodeRow(EncodeRow(score)).score];
      assert DecodeRow(header).score in multiset(SortByTime(decoded));
    }
  }

  /**
   * The header holds resource ids (`R.string.csv_mines.toString()` is a large
   * number), so its column 2 is a number but no ordinal: reading the file back
   * after the first save fails with an index error.
   */
  lemma NumericHeaderFailsRead(header: Row, score: Score)
    requires |header| == 4 && ParseInt(header[1]).Some?
    requires ParseInt(header[2]).Some? && ParseInt(header[2]).value >= 3
    ensures ReadScores(Some(AppendScore(None, header, score))) == Failure(IndexOutOfBounds)
  {
  }
}
