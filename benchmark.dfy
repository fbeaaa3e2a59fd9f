/** The windowed timing benchmark of `mfa_assignment/scripts/Experiments/benchmark.py`:
    every reference word takes the smallest start-time difference to a
    hypothesis word with the same text, if one lies within half a second. */
module Benchmark {
  import opened Text
  import opened Tiers
  import opened Stats

  // ---------------------------------------------------------------------------
  // normalize_word

  /** The characters `w.strip(".,?!\"")` removes from both ends. */
  const Punctuation: set<Char> := {'.', ',', '?', '!', '"'}

  /** `normalize_word(w)`: strip the punctuation in `Punctuation` from both
      ends, then lowercase. */
  function NormalizeWord(w: Str): Str {
    Lower(Strip(w, Punctuation))
  }

  /** `normalize_word` cuts off only leading and trailing punctuation and then
      lowercases: the result is the lowercased slice `w[i..j]`, everything
      before `i` and from `j` on is punctuation, and the result does not start
      or end with punctuation; punctuation and spaces inside the word stay. */
  lemma NormalizeWordIsTrim(w: Str)
    ensures exists i, j :: 0 <= i <= j <= |w| && NormalizeWord(w) == Lower(w[i..j])
                           && (forall k :: 0 <= k < i ==> w[k] in Punctuation)
                           && (forall k :: j <= k < |w| ==> w[k] in Punctuation)
    ensures |NormalizeWord(w)| > 0 ==>
              NormalizeWord(w)[0] !in Punctuation && NormalizeWord(w)[|NormalizeWord(w)| - 1] !in Punctuation
    ensures forall k :: 0 <= k < |NormalizeWord(w)| ==> !IsUpper(NormalizeWord(w)[k])
  {
    StripIsTrim(w, Punctuation);
    var t := Strip(w, Punctuation);
    if |t| > 0 {
      assert NormalizeWord(w)[0] == LowerChar(t[0]);
      assert NormalizeWord(w)[|t| - 1] == LowerChar(t[|t| - 1]);
    }
  }

  /** `normalize_word` is idempotent. */
  lemma NormalizeWordIdempotent(w: Str)
    ensures NormalizeWord(NormalizeWord(w)) == NormalizeWord(w)
  {
    var n := NormalizeWord(w);
    NormalizeWordIsTrim(w);
    StripLeftNoop(n, Punctuation);
    StripRightNoop(n, Punctuation);
    LowerIdempotent(Strip(w, Punctuation));
  }

  /** Wrapping a word in punctuation does not change what it normalises to,
      however much punctuation there is on either side, as long as the word
      itself neither starts nor ends with punctuation. */
  lemma NormalizeWordWrapped(pre: Str, w: Str, post: Str)
    requires forall k :: 0 <= k < |pre| ==> pre[k] in Punctuation
    requires forall k :: 0 <= k < |post| ==> post[k] in Punctuation
    requires |w| > 0 ==> w[0] !in Punctuation && w[|w| - 1] !in Punctuation
    ensures NormalizeWord(pre + w + post) == Lower(w)
  {
    assert pre + w + post == pre + (w + post);
    if w == [] {
      assert w + post == post;
      StripLeftPrefix(pre + post, [], Punctuation);
      assert pre + post + [] == pre + post;
      assert w == [];
    } else {
      assert (w + post)[0] == w[0];
      StripLeftPrefix(pre, w + post, Punctuation);
      StripRightSuffix(w, post, Punctuation);
    }
  }

  /** Case and outer punctuation do not matter: `"The,"` and `"the"` agree. */
  lemma NormalizeWordExample()
    ensures NormalizeWord("The,") == NormalizeWord("the") == "the"
  {
    var w: Str := "The";
    NormalizeWordWrapped([], w, [',']);
    assert [] + w + [','] == "The,";
    NormalizeWordWrapped([], "the", []);
    assert [] + "the" + [] == "the";
    assert Lower(w) == "the";
  }

  /** Inner punctuation stays: `"\"Don't.\""` becomes `"don't"`. */
  lemma NormalizeWordKeepsInner()
    ensures NormalizeWord("\"Don't.\"") == "don't"
  {
    var w: Str := "Don't";
    NormalizeWordWrapped(['"'], w, ['.', '"']);
    assert ['"'] + w + ['.', '"'] == "\"Don't.\"";
    assert Lower(w) == "don't";
  }

  // ---------------------------------------------------------------------------
  // the windowed best match

  /** Two words further apart than this are not compared. */
  const Window: real := 0.5

  /** `abs(m_w["start"] - w_w["start"])`. */
  function Delta(m: Timed, w: Timed): real {
    Abs(m.start - w.start)
  }

  /** `w` can match `m`: the same text and less than `Window` apart. */
  predicate Candidate(m: Timed, w: Timed) {
    m.word == w.word && Delta(m, w) < Window
  }

  /** `best_match_diff` after scanning `whis`: None for `float('inf')`,
      otherwise the smallest difference seen so far. */
  function BestMatch(m: Timed, whis: seq<Timed>): Option<real> {
    if whis == [] then None
    else
      var best := BestMatch(m, whis[..|whis| - 1]);
      var w := whis[|whis| - 1];
      if Candidate(m, w) && (best.None? || Delta(m, w) < best.value) then Some(Delta(m, w)) else best
  }

  /** The recorded deviation is the minimum difference over the candidates:
      it is None exactly when no hypothesis word is a candidate, and otherwise
      it is the difference to some candidate and no candidate is closer. */
  lemma {:induction false} BestMatchIsMinimum(m: Timed, whis: seq<Timed>)
    ensures BestMatch(m, whis).None? <==> forall k :: 0 <= k < |whis| ==> !Candidate(m, whis[k])
    ensures BestMatch(m, whis).Some? ==>
              (exists k :: 0 <= k < |whis| && Candidate(m, whis[k]) && BestMatch(m, whis).value == Delta(m, whis[k]))
              && forall k :: 0 <= k < |whis| && Candidate(m, whis[k]) ==> BestMatch(m, whis).value <= Delta(m, whis[k])
    decreases |whis|
  {
    if whis != [] {
      var init := whis[..|whis| - 1];
      BestMatchIsMinimum(m, init);
      assert forall k :: 0 <= k < |init| ==> init[k] == whis[k];
      var best := BestMatch(m, init);
      var w := whis[|whis| - 1];
      if BestMatch(m, whis).Some? {
        if Candidate(m, w) && (best.None? || Delta(m, w) < best.value) {
          assert Candidate(m, whis[|whis| - 1]);
        } else {
          var k :| 0 <= k < |init| && Candidate(m, init[k]) && best.value == Delta(m, init[k]);
          assert Candidate(m, whis[k]);
        }
      }
    }
  }

  /** `deviations` for the reference words `mfa`: one entry per reference word
      that has a candidate. */
  function Deviations(mfa: seq<Timed>, whis: seq<Timed>): seq<real> {
    if mfa == [] then []
    else
      var best := BestMatch(mfa[|mfa| - 1], whis);
      Deviations(mfa[..|mfa| - 1], whis) + (if best.Some? then [best.value] else [])
  }

  /** Each reference word is matched on its own against all of `whis`: the
      deviations of a concatenation are the concatenation of the deviations. */
  lemma {:induction false} DeviationsAppend(a: seq<Timed>, b: seq<Timed>, whis: seq<Timed>)
    ensures Deviations(a + b, whis) == Deviations(a, whis) + Deviations(b, whis)
    decreases |b|
  {
    if b == [] {
      assert a + b == a;
    } else {
      assert (a + b)[..|a + b| - 1] == a + b[..|b| - 1];
      DeviationsAppend(a, b[..|b| - 1], whis);
    }
  }

  /** At most one deviation per reference word, each below the window. */
  lemma {:induction false} DeviationsBounded(mfa: seq<Timed>, whis: seq<Timed>)
    ensures |Deviations(mfa, whis)| <= |mfa|
    ensures forall k :: 0 <= k < |Deviations(mfa, whis)| ==> 0.0 <= Deviations(mfa, whis)[k] < Window
    decreases |mfa|
  {
    if mfa != [] {
      DeviationsBounded(mfa[..|mfa| - 1], whis);
      BestMatchIsMinimum(mfa[|mfa| - 1], whis);
    }
  }

  /** A reference word without a same-text hypothesis word inside the window
      records nothing. */
  lemma NoCandidateNoDeviation(a: seq<Timed>, m: Timed, b: seq<Timed>, whis: seq<Timed>)
    requires forall k :: 0 <= k < |whis| ==> !Candidate(m, whis[k])
    ensures Deviations(a + [m] + b, whis) == Deviations(a + b, whis)
  {
    assert Deviations([m], whis) == [] by {
      BestMatchIsMinimum(m, whis);
      assert [m][..0] == [];
    }
    calc {
      Deviations(a + [m] + b, whis);
    == { DeviationsAppend(a + [m], b, whis); }
      Deviations(a + [m], whis) + Deviations(b, whis);
    == { DeviationsAppend(a, [m], whis); }
      Deviations(a, whis) + Deviations([m], whis) + Deviations(b, whis);
    == { assert Deviations(a, whis) + [] == Deviations(a, whis); }
      Deviations(a, whis) + Deviations(b, whis);
    == { DeviationsAppend(a, b, whis); }
      Deviations(a + b, whis);
    }
  }

  /** Hypothesis words are not used up: one hypothesis "the" at 0.05 s is the
      best match of two reference words "the" at 0.0 s and 0.1 s. */
  lemma SharedBestMatch()
    ensures Deviations([Timed("the", 0.0), Timed("the", 0.1)], [Timed("the", 0.05)]) == [0.05, 0.05]
  {
    var whis := [Timed("the", 0.05)];
    assert whis[..0] == [];
    assert BestMatch(Timed("the", 0.0), whis) == Some(0.05);
    assert BestMatch(Timed("the", 0.1), whis) == Some(0.05);
    var mfa := [Timed("the", 0.0), Timed("the", 0.1)];
    assert mfa[..1] == [Timed("the", 0.0)];
    assert mfa[..1][..0] == [];
  }

  /** The matching loop of `benchmark_alignment` for one file: `deviations` has
      one best-match difference per reference word that has a candidate, and
      `matches` counts them. */
  method MatchFile(mfa: seq<Timed>, whis: seq<Timed>) returns (deviations: seq<real>, matches: nat)
    ensures deviations == Deviations(mfa, whis)
    ensures matches == |deviations| <= |mfa|
  {
    deviations := [];
    matches := 0;
    var n := 0;
    while n < |mfa|
      invariant 0 <= n <= |mfa|
      invariant deviations == Deviations(mfa[..n], whis)
      invariant matches == |deviations| <= n
    {
      var mw := mfa[n];
      var best: Option<real> := None;
      var k := 0;
      while k < |whis|
        invariant 0 <= k <= |whis|
        invariant best == BestMatch(mw, whis[..k])
      {
        var ww := whis[k];
        assert whis[..k + 1][..k] == whis[..k];
        if mw.word == ww.word {
          var diff := Abs(mw.start - ww.start);
          if diff < Window {
            if best.None? || diff < best.value {
              best := Some(diff);
            }
          }
        }
        k := k + 1;
      }
      assert whis[..k] == whis;
      assert mfa[..n + 1][..n] == mfa[..n];
      if best.Some? {
        deviations := deviations + [best.value];
        matches := matches + 1;
      }
      n := n + 1;
    }
    assert mfa[..n] == mfa;
  }

  // ---------------------------------------------------------------------------
  // one file and the whole batch

  /** One audio file: the words tier of its TextGrid (None when the TextGrid is
      missing) and the raw Whisper words, flattened over segments. */
  datatype FileInput = FileInput(words: Option<seq<Interval>>, hyp: seq<Timed>)

  /** `mfa_words`: the non-silence intervals as `(normalize_word(mark), minTime)`. */
  function MfaWords(tier: seq<Interval>): seq<Timed> {
    Words(tier, NormalizeWord)
  }

  /** `whisper_words`: every recognised word as `(normalize_word(word), start)`. */
  function WhisperWords(hyp: seq<Timed>): seq<Timed> {
    seq(|hyp|, k requires 0 <= k < |hyp| => Timed(NormalizeWord(hyp[k].word), hyp[k].start))
  }

  function FileDeviations(f: FileInput): seq<real> {
    if f.words.None? then [] else Deviations(MfaWords(f.words.value), WhisperWords(f.hyp))
  }

  function FileRowOf(f: FileInput): FileRow {
    if f.words.None? then Skipped else Row(FileDeviations(f), |MfaWords(f.words.value)|)
  }

  /** `all_deviations`: the per-file deviations joined in file order. */
  function AllDeviations(files: seq<FileInput>): seq<real> {
    if files == [] then [] else AllDeviations(files[..|files| - 1]) + FileDeviations(files[|files| - 1])
  }

  /** Every pooled deviation is below the window. */
  lemma {:induction false} AllDeviationsBounded(files: seq<FileInput>)
    ensures forall k :: 0 <= k < |AllDeviations(files)| ==> 0.0 <= AllDeviations(files)[k] < Window
    decreases |files|
  {
    if files != [] {
      AllDeviationsBounded(files[..|files| - 1]);
      var f := files[|files| - 1];
      if f.words.Some? {
        DeviationsBounded(MfaWords(f.words.value), WhisperWords(f.hyp));
      }
    }
  }

  /** The pooled list is built file by file, in file order. */
  lemma {:induction false} AllDeviationsAppend(a: seq<FileInput>, b: seq<FileInput>)
    ensures AllDeviations(a + b) == AllDeviations(a) + AllDeviations(b)
    decreases |b|
  {
    if b == [] {
      assert a + b == a;
    } else {
      var init := b[..|b| - 1];
      var last := FileDeviations(b[|b| - 1]);
      assert (a + b)[..|a + b| - 1] == a + init;
      assert (a + b)[|a + b| - 1] == b[|b| - 1];
      assert AllDeviations(a + b) == AllDeviations(a + init) + last;
      AllDeviationsAppend(a, init);
      assert AllDeviations(b) == AllDeviations(init) + last;
    }
  }

  /** The overall error weighs every deviation equally, whichever file it
      comes from: over two batches its total and its count are the sums of
      the batches' totals and counts, so it is not the mean of the two batch
      errors. */
  lemma MaePooled(a: seq<FileInput>, b: seq<FileInput>)
    ensures Sum(AllDeviations(a + b)) == Sum(AllDeviations(a)) + Sum(AllDeviations(b))
    ensures |AllDeviations(a + b)| == |AllDeviations(a)| + |AllDeviations(b)|
  {
    AllDeviationsAppend(a, b);
    SumAppend(AllDeviations(a), AllDeviations(b));
  }

  /** The body of the file loop of `benchmark_alignment` for one audio file:
      its row and the deviations it adds to the pool. */
  method BenchmarkFile(file: FileInput) returns (row: FileRow, deviations: seq<real>)
    ensures row == FileRowOf(file)
    ensures deviations == FileDeviations(file)
  {
    if file.words.None? {
      return Skipped, [];
    }
    var mfaWords := CollectWords(file.words.value, NormalizeWord);
    var whisperWords := WhisperWords(file.hyp);
    var matches;
    deviations, matches := MatchFile(mfaWords, whisperWords);
    if deviations != [] {
      row := Matched(matches, |mfaWords|, Mean(deviations));
    } else {
      row := NoMatches;
    }
  }

  /** The file loop of `benchmark_alignment`: the rows and the pooled deviations. */
  method BenchmarkFiles(files: seq<FileInput>) returns (rows: seq<FileRow>, allDeviations: seq<real>)
    ensures rows == FileRows(files, FileRowOf)
    ensures allDeviations == AllDeviations(files)
  {
    rows := [];
    allDeviations := [];
    var f := 0;
    while f < |files|
      invariant 0 <= f <= |files|
      invariant rows == FileRows(files[..f], FileRowOf)
      invariant allDeviations == AllDeviations(files[..f])
    {
      assert files[..f + 1][..f] == files[..f];
      var row, deviations := BenchmarkFile(files[f]);
      rows := rows + [row];
      if deviations != [] {
        allDeviations := allDeviations + deviations;
      }
      f := f + 1;
    }
    assert files[..f] == files;
  }

  /** `benchmark_alignment`: one row per audio file, the pooled deviations, and
      the overall mean absolute error when any deviation was recorded (None
      stands for the "No matches found" notice). */
  method BenchmarkAlignment(files: seq<FileInput>) returns (rows: seq<FileRow>, allDeviations: seq<real>, mae: Option<real>)
    ensures |rows| == |files|
    ensures forall k :: 0 <= k < |files| ==> rows[k] == FileRowOf(files[k])
    ensures allDeviations == AllDeviations(files)
    ensures mae.None? <==> allDeviations == []
    ensures mae.Some? ==> mae.value == Mean(allDeviations) && 0.0 <= mae.value < Window
  {
    rows, allDeviations := BenchmarkFiles(files);
    FileRowsAt(files, FileRowOf);
    if allDeviations != [] {
      AllDeviationsBounded(files);
      MeanBelow(allDeviations, Window);
      mae := Some(Mean(allDeviations));
    } else {
      mae := None;
    }
  }
}
