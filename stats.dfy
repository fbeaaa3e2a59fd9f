/** Exact arithmetic for the summaries the scripts print: sums, the mean that
    `np.mean` computes, pooling per-file samples, and the per-file report line. */
module Stats {

  /** `abs` on a time difference. */
  function Abs(x: real): real {
    if x < 0.0 then -x else x
  }

  function Sum(xs: seq<real>): real {
    if xs == [] then 0.0 else Sum(xs[..|xs| - 1]) + xs[|xs| - 1]
  }

  /** `np.mean(xs)`, with 0 for an empty list (the scripts' own fallback). */
  function Mean(xs: seq<real>): real {
    if |xs| == 0 then 0.0 else Sum(xs) / |xs| as real
  }

  lemma {:induction false} SumAppend(a: seq<real>, b: seq<real>)
    ensures Sum(a + b) == Sum(a) + Sum(b)
    decreases |b|
  {
    if b == [] {
      assert a + b == a;
    } else {
      assert (a + b)[..|a + b| - 1] == a + b[..|b| - 1];
      SumAppend(a, b[..|b| - 1]);
    }
  }

  lemma {:induction false} SumBounds(xs: seq<real>, lo: real, hi: real)
    requires forall k :: 0 <= k < |xs| ==> lo <= xs[k] <= hi
    ensures lo * |xs| as real <= Sum(xs) <= hi * |xs| as real
    decreases |xs|
  {
    if xs != [] {
      SumBounds(xs[..|xs| - 1], lo, hi);
    }
  }

  lemma {:induction false} SumBelow(xs: seq<real>, hi: real)
    requires |xs| > 0
    requires forall k :: 0 <= k < |xs| ==> xs[k] < hi
    ensures Sum(xs) < hi * |xs| as real
    decreases |xs|
  {
    if |xs| > 1 {
      SumBelow(xs[..|xs| - 1], hi);
    }
  }

  /** The mean of values in `[lo, hi]` is in `[lo, hi]`. */
  lemma MeanBounds(xs: seq<real>, lo: real, hi: real)
    requires |xs| > 0
    requires forall k :: 0 <= k < |xs| ==> lo <= xs[k] <= hi
    ensures lo <= Mean(xs) <= hi
  {
    SumBounds(xs, lo, hi);
    var n := |xs| as real;
    assert Sum(xs) == Mean(xs) * n;
  }

  /** The mean of non-empty values that are all in `[0, hi)` is in `[0, hi)`. */
  lemma MeanBelow(xs: seq<real>, hi: real)
    requires |xs| > 0
    requires forall k :: 0 <= k < |xs| ==> 0.0 <= xs[k] < hi
    ensures 0.0 <= Mean(xs) < hi
  {
    MeanBounds(xs, 0.0, hi);
    SumBelow(xs, hi);
    var n := |xs| as real;
    assert Sum(xs) == Mean(xs) * n;
  }

  /** Pooling two sample lists weighs each sample equally: the pooled mean is
      the total over the total count, not the mean of the two means. */
  lemma PooledMean(a: seq<real>, b: seq<real>)
    requires |a| + |b| > 0
    ensures Mean(a + b) == (Sum(a) + Sum(b)) / (|a| + |b|) as real
  {
    SumAppend(a, b);
  }

  /** One line of a benchmark table: a file without a TextGrid prints nothing,
      a file without a kept sample prints "0 matches", otherwise the match
      count, the number of reference words and the file's mean deviation. */
  datatype FileRow =
    | Skipped
    | NoMatches
    | Matched(matches: nat, words: nat, meanDeviation: real)

  /** The row a script prints for samples `xs` drawn from `words` reference words. */
  function Row(xs: seq<real>, words: nat): FileRow {
    if xs == [] then NoMatches else Matched(|xs|, words, Mean(xs))
  }

  /** The rows a benchmark prints for its files, in file order, given the row
      of one file. */
  function FileRows<F>(files: seq<F>, rowOf: F -> FileRow): seq<FileRow> {
    if files == [] then [] else FileRows(files[..|files| - 1], rowOf) + [rowOf(files[|files| - 1])]
  }

  /** One row per file, each the row of that file alone. */
  lemma {:induction false} FileRowsAt<F>(files: seq<F>, rowOf: F -> FileRow)
    ensures |FileRows(files, rowOf)| == |files|
    ensures forall k :: 0 <= k < |files| ==> FileRows(files, rowOf)[k] == rowOf(files[k])
    decreases |files|
  {
    if files != [] {
      var init := files[..|files| - 1];
      FileRowsAt(init, rowOf);
      assert FileRows(files, rowOf) == FileRows(init, rowOf) + [rowOf(files[|files| - 1])];
      forall k | 0 <= k < |init|
        ensures FileRows(files, rowOf)[k] == rowOf(files[k])
      {
        assert FileRows(files, rowOf)[k] == FileRows(init, rowOf)[k] && init[k] == files[k];
      }
    }
  }
}
