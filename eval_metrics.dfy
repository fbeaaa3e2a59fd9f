/** The phone-duration validity score of `scripts/eval_metrics.py`: for every
    TextGrid, the share of non-silence phones whose duration is plausible, and
    the unweighted mean of those per-file shares. */
module EvalMetrics {
  import opened Text
  import opened Tiers
  import opened Stats

  /** Seconds: a phone shorter than this is suspiciously fast. */
  const MinPhoneDuration: real := 0.03
  /** Seconds: a phone longer than this is suspiciously long. */
  const MaxPhoneDuration: real := 1.0

  function Duration(iv: Interval): real {
    iv.maxTime - iv.minTime
  }

  /** A phone is an outlier when its duration is outside the closed range
      `[MinPhoneDuration, MaxPhoneDuration]`. */
  predicate IsOutlier(iv: Interval) {
    Duration(iv) < MinPhoneDuration || Duration(iv) > MaxPhoneDuration
  }

  /** Both bounds of the range are themselves valid durations. */
  lemma BoundsAreValid(iv: Interval)
    requires MinPhoneDuration <= Duration(iv) <= MaxPhoneDuration
    ensures !IsOutlier(iv)
  {
  }

  /** The number of outliers in a list of phones. */
  function CountOutliers(phones: seq<Interval>): nat {
    if phones == [] then 0
    else CountOutliers(phones[..|phones| - 1]) + (if IsOutlier(phones[|phones| - 1]) then 1 else 0)
  }

  lemma {:induction false} CountOutliersBound(phones: seq<Interval>)
    ensures CountOutliers(phones) <= |phones|
    ensures CountOutliers(phones) == |phones| <==> forall k :: 0 <= k < |phones| ==> IsOutlier(phones[k])
    ensures CountOutliers(phones) == 0 <==> forall k :: 0 <= k < |phones| ==> !IsOutlier(phones[k])
    decreases |phones|
  {
    if phones != [] {
      var init := phones[..|phones| - 1];
      CountOutliersBound(init);
      assert forall k :: 0 <= k < |init| ==> init[k] == phones[k];
    }
  }

  /** `file_total`: the non-silence intervals of the tier. */
  function FileTotal(tier: seq<Interval>): nat {
    |KeepSpeech(tier)|
  }

  /** `file_bad`: the non-silence intervals of the tier that are outliers. */
  function FileBad(tier: seq<Interval>): nat {
    CountOutliers(KeepSpeech(tier))
  }

  /** An interval adds one to `file_total` exactly when it is not silence, and one
      to `file_bad` exactly when it is not silence and is an outlier. */
  lemma FileCountsSnoc(tier: seq<Interval>, iv: Interval)
    ensures FileTotal(tier + [iv]) == FileTotal(tier) + (if IsSilence(iv.mark) then 0 else 1)
    ensures FileBad(tier + [iv]) == FileBad(tier) + (if !IsSilence(iv.mark) && IsOutlier(iv) then 1 else 0)
  {
    assert (tier + [iv])[..|tier|] == tier;
    var kept := KeepSpeech(tier);
    if !IsSilence(iv.mark) {
      assert KeepSpeech(tier + [iv]) == kept + [iv];
      assert (kept + [iv])[..|kept|] == kept;
    } else {
      assert KeepSpeech(tier + [iv]) == kept;
    }
  }

  /** A silence interval anywhere in the tier is in neither count. */
  lemma SilenceNotCounted(a: seq<Interval>, s: Interval, b: seq<Interval>)
    requires IsSilence(s.mark)
    ensures FileTotal(a + [s] + b) == FileTotal(a + b)
    ensures FileBad(a + [s] + b) == FileBad(a + b)
  {
    SilenceDropped(a, s, b);
  }

  /** `0 <= file_bad <= file_total`. */
  lemma FileBadAtMostTotal(tier: seq<Interval>)
    ensures FileBad(tier) <= FileTotal(tier)
  {
    CountOutliersBound(KeepSpeech(tier));
  }

  /** The per-file validity percentage, 0 when the file has no phones. */
  function Score(total: nat, bad: nat): real {
    if total == 0 then 0.0 else ((total - bad) as real / total as real) * 100.0
  }

  /** The score is a percentage, it is 100 exactly when no phone is an outlier,
      and it is 0 when the file has no phones or every phone is an outlier. */
  lemma ScoreRange(total: nat, bad: nat)
    requires bad <= total
    ensures 0.0 <= Score(total, bad) <= 100.0
    ensures total > 0 ==> (Score(total, bad) == 100.0 <==> bad == 0)
    ensures Score(total, bad) == 0.0 <==> bad == total
  {
    if total > 0 {
      var q := (total - bad) as real / total as real;
      assert q * total as real == (total - bad) as real;
      assert 0.0 <= q <= 1.0;
      assert q == 1.0 <==> bad == 0;
      assert q == 0.0 <==> bad == total;
    }
  }

  /** What `evaluate_quality` prints for one TextGrid. */
  datatype QualityRow = QualityRow(score: real, outliers: nat)

  /** What `evaluate_quality` produces: nothing but a notice when there is no
      TextGrid, otherwise one row per file, the outlier total and the final score. */
  datatype QualityReport =
    | NoTextGrids
    | Quality(rows: seq<QualityRow>, badPhones: nat, avgScore: real)

  /** The row of one file's phones tier. */
  function RowOf(tier: seq<Interval>): QualityRow {
    QualityRow(Score(FileTotal(tier), FileBad(tier)), FileBad(tier))
  }

  /** `bad_phones` after the first `|files|` files. */
  function TotalBad(files: seq<seq<Interval>>): nat {
    if files == [] then 0 else TotalBad(files[..|files| - 1]) + FileBad(files[|files| - 1])
  }

  /** The rows printed for the first `|files|` files. */
  function Rows(files: seq<seq<Interval>>): seq<QualityRow> {
    if files == [] then [] else Rows(files[..|files| - 1]) + [RowOf(files[|files| - 1])]
  }

  /** A file's score is a percentage. */
  lemma RowScoreRange(tier: seq<Interval>)
    ensures 0.0 <= RowOf(tier).score <= 100.0
  {
    FileBadAtMostTotal(tier);
    ScoreRange(FileTotal(tier), FileBad(tier));
  }

  /** One row per file, each the row of that file alone, and every score a
      percentage. */
  lemma {:induction false} RowsAt(files: seq<seq<Interval>>)
    ensures |Rows(files)| == |files|
    ensures forall k :: 0 <= k < |files| ==> Rows(files)[k] == RowOf(files[k])
    ensures forall k :: 0 <= k < |files| ==> 0.0 <= Rows(files)[k].score <= 100.0
    decreases |files|
  {
    if files != [] {
      var init := files[..|files| - 1];
      var last := files[|files| - 1];
      RowsAt(init);
      assert Rows(files) == Rows(init) + [RowOf(last)];
      forall k | 0 <= k < |files|
        ensures Rows(files)[k] == RowOf(files[k]) && 0.0 <= Rows(files)[k].score <= 100.0
      {
        if k < |init| {
          assert Rows(files)[k] == Rows(init)[k] && init[k] == files[k];
        } else {
          RowScoreRange(last);
        }
      }
    }
  }

  function Scores(rows: seq<QualityRow>): (s: seq<real>)
    ensures |s| == |rows|
  {
    seq(|rows|, k requires 0 <= k < |rows| => rows[k].score)
  }

  lemma ScoresSnoc(rows: seq<QualityRow>, row: QualityRow)
    ensures Scores(rows + [row]) == Scores(rows) + [row.score]
  {
  }

  /** The interval loop of `evaluate_quality` for one phones tier: it counts
      the non-silence phones and the outliers among them, and bumps the
      running `bad_phones` counter at each outlier. */
  method ScanTier(tier: seq<Interval>, badPhones0: nat) returns (fileTotal: nat, fileBad: nat, badPhones: nat)
    ensures fileTotal == FileTotal(tier) && fileBad == FileBad(tier)
    ensures fileBad <= fileTotal
    ensures badPhones == badPhones0 + fileBad
  {
    fileTotal, fileBad, badPhones := 0, 0, badPhones0;
    var k := 0;
    while k < |tier|
      invariant 0 <= k <= |tier|
      invariant fileTotal == FileTotal(tier[..k])
      invariant fileBad == FileBad(tier[..k])
      invariant badPhones == badPhones0 + fileBad
    {
      var iv := tier[k];
      FileCountsSnoc(tier[..k], iv);
      assert tier[..k + 1] == tier[..k] + [iv];
      if !IsSilence(iv.mark) {
        fileTotal := fileTotal + 1;
        if Duration(iv) < MinPhoneDuration || Duration(iv) > MaxPhoneDuration {
          fileBad := fileBad + 1;
          badPhones := badPhones + 1;
        }
      }
      k := k + 1;
    }
    assert tier[..k] == tier;
    FileBadAtMostTotal(tier);
  }

  /** The score line of `evaluate_quality` for one file. */
  method FileScore(fileTotal: nat, fileBad: nat) returns (score: real)
    requires fileBad <= fileTotal
    ensures score == Score(fileTotal, fileBad)
    ensures 0.0 <= score <= 100.0
  {
    if fileTotal == 0 {
      score := 0.0;
    } else {
      score := ((fileTotal - fileBad) as real / fileTotal as real) * 100.0;
    }
    ScoreRange(fileTotal, fileBad);
  }

  /** The file loop of `evaluate_quality`: the rows, the per-file scores and
      the outlier total. */
  method ScanFiles(files: seq<seq<Interval>>) returns (rows: seq<QualityRow>, fileScores: seq<real>, badPhones: nat)
    ensures rows == Rows(files)
    ensures fileScores == Scores(rows)
    ensures badPhones == TotalBad(files)
  {
    badPhones := 0;
    fileScores := [];
    rows := [];
    var f := 0;
    while f < |files|
      invariant 0 <= f <= |files|
      invariant rows == Rows(files[..f])
      invariant fileScores == Scores(rows)
      invariant badPhones == TotalBad(files[..f])
    {
      var tier := files[f];
      assert files[..f + 1][..f] == files[..f];
      var fileTotal, fileBad;
      fileTotal, fileBad, badPhones := ScanTier(tier, badPhones);
      var score := FileScore(fileTotal, fileBad);
      var row := QualityRow(score, fileBad);
      assert row == RowOf(tier);
      ScoresSnoc(rows, row);
      fileScores := fileScores + [score];
      rows := rows + [row];
      f := f + 1;
    }
    assert files[..f] == files;
  }

  /** `evaluate_quality` over the phones tiers of the TextGrid files, in
      directory order. */
  method EvaluateQuality(files: seq<seq<Interval>>) returns (r: QualityReport)
    ensures r.NoTextGrids? <==> files == []
    ensures r.Quality? ==> |r.rows| == |files|
    ensures r.Quality? ==> forall f :: 0 <= f < |files| ==> r.rows[f] == RowOf(files[f])
    ensures r.Quality? ==> r.badPhones == TotalBad(files)
    ensures r.Quality? ==> r.avgScore == Mean(Scores(r.rows))
    ensures r.Quality? ==> 0.0 <= r.avgScore <= 100.0
  {
    if files == [] {
      return NoTextGrids;
    }
    var rows, fileScores, badPhones := ScanFiles(files);
    RowsAt(files);
    var avgScore := if |fileScores| > 0 then Mean(fileScores) else 0.0;
    MeanBounds(fileScores, 0.0, 100.0);
    r := Quality(rows, badPhones, avgScore);
  }
}
