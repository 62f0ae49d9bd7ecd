/**
 * The leaderboard screen's state holder and the filter the screen applies
 * to it: the scores recorded for exactly the selected pair of difficulties,
 * in the order in which they were loaded.
 */
module LeaderBoard {
  import opened DataManagement

  /** The scores whose mine and size difficulties are the selected ones. */
  function Selected(scores: seq<Score>, mine: DifficultyOption, size: DifficultyOption): (r: seq<Score>)
    ensures forall s :: s in r <==> s in scores && s.mineDifficulty == mine && s.sizeDifficulty == size
    ensures |r| <= |scores|
    ensures SortedByTime(scores) ==> SortedByTime(r)
    decreases |scores|
  {
    if scores == [] then []
    else
      var rest := Selected(scores[1..], mine, size);
      assert forall s :: s in scores[1..] ==> s in scores;
      if scores[0].mineDifficulty == mine && scores[0].sizeDifficulty == size then
        SelectedHead(scores, rest);
        [scores[0]] + rest
      else
        assert SortedByTime(scores) ==> SortedByTime(rest) by {
          if SortedByTime(scores) {
            SortedTail(scores);
          }
        }
        rest
  }

  /** A kept head stays in order in front of the scores kept from the rest. */
  lemma SelectedHead(scores: seq<Score>, rest: seq<Score>)
    requires scores != [] && forall s :: s in rest ==> s in scores[1..]
    requires SortedByTime(scores[1..]) ==> SortedByTime(rest)
    ensures SortedByTime(scores) ==> SortedByTime([scores[0]] + rest)
  {
    if SortedByTime(scores) {
      SortedTail(scores);
      if rest != [] {
        assert rest[0] in scores[1..];
        var k :| 0 <= k < |scores[1..]| && scores[1..][k] == rest[0];
        assert scores[k + 1] == rest[0];
      }
      SortedCons(scores[0], rest);
    }
  }

  /** Filtering twice by the same selection is filtering once. */
  lemma {:induction false} SelectedIdempotent(scores: seq<Score>, mine: DifficultyOption, size: DifficultyOption)
    ensures Selected(Selected(scores, mine, size), mine, size) == Selected(scores, mine, size)
    decreases |scores|
  {
    if scores != [] {
      SelectedIdempotent(scores[1..], mine, size);
      var rest := Selected(scores[1..], mine, size);
      if scores[0].mineDifficulty == mine && scores[0].sizeDifficulty == size {
        assert ([scores[0]] + rest)[1..] == rest;
      }
    }
  }

  /** The score kept from one score: itself when both difficulties match, otherwise nothing. */
  function Kept(s: Score, mine: DifficultyOption, size: DifficultyOption): seq<Score> {
    if s.mineDifficulty == mine && s.sizeDifficulty == size then [s] else []
  }

  /** Kotlin's `filter` as a plain fold: what each score keeps, in order. */
  function KeptAll(scores: seq<Score>, mine: DifficultyOption, size: DifficultyOption): seq<Score>
    decreases |scores|
  {
    if scores == [] then [] else Kept(scores[0], mine, size) + KeptAll(scores[1..], mine, size)
  }

  lemma {:induction false} KeptAllAppend(a: seq<Score>, b: seq<Score>, mine: DifficultyOption, size: DifficultyOption)
    ensures KeptAll(a + b, mine, size) == KeptAll(a, mine, size) + KeptAll(b, mine, size)
    decreases |a|
  {
    if a == [] {
      assert a + b == b;
    } else {
      assert (a + b)[0] == a[0];
      assert (a + b)[1..] == a[1..] + b;
      KeptAllAppend(a[1..], b, mine, size);
      var k, x, y := Kept(a[0], mine, size), KeptAll(a[1..], mine, size), KeptAll(b, mine, size);
      assert k + (x + y) == (k + x) + y;
    }
  }

  /** The filter is that fold. */
  lemma {:induction false} SelectedIsKeptAll(scores: seq<Score>, mine: DifficultyOption, size: DifficultyOption)
    ensures Selected(scores, mine, size) == KeptAll(scores, mine, size)
    decreases |scores|
  {
    if scores != [] {
      SelectedIsKeptAll(scores[1..], mine, size);
      if scores[0].mineDifficulty != mine || scores[0].sizeDifficulty != size {
        assert [] + KeptAll(scores[1..], mine, size) == KeptAll(scores[1..], mine, size);
      }
    }
  }

  /** A single score is kept exactly when both its difficulties match. */
  lemma SelectedOne(s: Score, mine: DifficultyOption, size: DifficultyOption)
    ensures Selected([s], mine, size) == Kept(s, mine, size)
  {
    assert [s][1..] == [];
  }

  /**
   * The filter keeps order and multiplicity: the selection of a
   * concatenation is the concatenation of the selections.
   */
  lemma SelectedAppend(a: seq<Score>, b: seq<Score>, mine: DifficultyOption, size: DifficultyOption)
    ensures Selected(a + b, mine, size) == Selected(a, mine, size) + Selected(b, mine, size)
  {
    SelectedIsKeptAll(a + b, mine, size);
    SelectedIsKeptAll(a, mine, size);
    SelectedIsKeptAll(b, mine, size);
    KeptAllAppend(a, b, mine, size);
  }

  /** The filter only drops scores: it never repeats or invents one. */
  lemma {:induction false} SelectedWithinScores(scores: seq<Score>, mine: DifficultyOption, size: DifficultyOption)
    ensures multiset(Selected(scores, mine, size)) <= multiset(scores)
    decreases |scores|
  {
    if scores != [] {
      SelectedWithinScores(scores[1..], mine, size);
      assert scores == [scores[0]] + scores[1..];
    }
  }

  class LeaderBoardViewModel {
    var mineDifficulty: DifficultyOption
    var sizeDifficulty: DifficultyOption
    var allScores: seq<Score>

    /** Both selections start at the middle option, with no scores loaded. */
    constructor ()
      ensures mineDifficulty == MEDIUM && sizeDifficulty == MEDIUM && allScores == []
    {
      mineDifficulty := MEDIUM;
      sizeDifficulty := MEDIUM;
      allScores := [];
    }

    /** What the screen lists: the loaded scores for the current selection. */
    function SelectedScores(): (r: seq<Score>)
      reads this
      ensures forall s :: s in r <==> s in allScores && s.mineDifficulty == mineDifficulty && s.sizeDifficulty == sizeDifficulty
      ensures SortedByTime(allScores) ==> SortedByTime(r)
    {
      Selected(allScores, mineDifficulty, sizeDifficulty)
    }

    /** `setScores`: replaces the loaded scores wholesale. */
    method SetScores(scores: seq<Score>)
      modifies this
      ensures allScores == scores
      ensures mineDifficulty == old(mineDifficulty) && sizeDifficulty == old(sizeDifficulty)
    {
      allScores := scores;
    }

    /** `clearScores`: forgets the loaded scores, so nothing is listed. */
    method ClearScores()
      modifies this
      ensures allScores == [] && SelectedScores() == []
      ensures mineDifficulty == old(mineDifficulty) && sizeDifficulty == old(sizeDifficulty)
    {
      allScores := [];
    }

    /** `onMineDifficultyChanged`: selects another mine difficulty. */
    method OnMineDifficultyChanged(option: DifficultyOption)
      modifies this
      ensures mineDifficulty == option
      ensures sizeDifficulty == old(sizeDifficulty) && allScores == old(allScores)
    {
      mineDifficulty := option;
    }

    /** `onSizeDifficultyChanged`: selects another size difficulty. */
    method OnSizeDifficultyChanged(option: DifficultyOption)
      modifies this
      ensures sizeDifficulty == option
      ensures mineDifficulty == old(mineDifficulty) && allScores == old(allScores)
    {
      sizeDifficulty := option;
    }
  }
}
