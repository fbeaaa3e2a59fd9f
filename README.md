# Forced-alignment evaluation scripts, modelled in Dafny

This project models the comparison and scoring logic of the evaluation scripts
that come with a Montreal Forced Aligner setup, and proves properties of it.
There are five scripts:

- `scripts/eval_metrics.py` scores every TextGrid by the share of phones whose
  duration is plausible (between 0.03 s and 1.0 s). It prints one line per
  file and the unweighted mean over files.
- `scripts/Experiments/robust_benchmark.py` normalises the reference words
  (the TextGrid "words" tier) and the hypothesis words (Whisper) with a regular
  expression, and diffs the two token lists with `difflib.SequenceMatcher`.
  Inside every `equal` run it compares the start times of paired tokens, keeps
  differences below 0.5 s, and reports per-file and pooled mean absolute errors.
- `mfa_assignment/scripts/Experiments/benchmark.py` normalises words with
  `strip(".,?!\"").lower()`. For every reference word it takes the smallest
  start-time difference to a hypothesis word with the same text, counting only
  differences below 0.5 s. It reports per-file and pooled errors.
- `scripts/Experiments/debug_whisper.py` lists, for the first audio file, the
  normalised reference words next to the normalised Whisper transcript split on
  whitespace.
- `mfa_assignment/scripts/Experiments/check_dict.py` reports, with 1-based line
  numbers, every non-blank pronunciation-dictionary line that has fewer than
  two whitespace-separated fields.

One module per script, plus three shared modules:

| file | module | what it holds |
|---|---|---|
| `text.dfy` | `Text` | ASCII characters. The Python string built-ins the scripts use: `lower`, `strip(chars)` and argument-less `split`. |
| `tiers.dfy` | `Tiers` | TextGrid intervals, timed words, the silence filter, and the `mfa_words` loop. |
| `stats.dfy` | `Stats` | `abs`, sums, the mean `np.mean` computes, and the row a benchmark prints for one file. |
| `eval_metrics.dfy` | `EvalMetrics` | `evaluate_quality`. |
| `robust_benchmark.dfy` | `RobustBenchmark` | `normalize`, the opcode shape, and `benchmark_robust`. |
| `benchmark.dfy` | `Benchmark` | `normalize_word`, the windowed best match, and `benchmark_alignment`. |
| `debug_whisper.dfy` | `DebugWhisper` | `debug_first_file`. |
| `check_dict.dfy` | `CheckDict` | `check_dict`. |

## How the scripts are modelled

- **Imperative code stays loops.** The loops that count, append and bump
  counters are `method`s with `while` loops: the interval loop, the file loops,
  the opcode and pair loops, the nested best-match loop, the `mfa_words` loop
  and the dictionary line loop. Each method is proved equal to a
  specification function over the inputs, and the properties are lemmas about
  those functions.
- **Pure code becomes functions.** The normalisers, the `mfa_words`
  comprehension in `debug_whisper.py` and the final averages are functions.
- **Callers pass in what the scripts read from outside:**
  - A TextGrid tier is a sequence of `Interval(mark, minTime, maxTime)`.
  - Whisper's words, flattened over segments, are a sequence of
    `Timed(word, start)`.
  - A missing TextGrid is `None`.
  - The opcodes `SequenceMatcher.get_opcodes()` returns are an input sequence
    of `Opcode(tag, i1, i2, j1, j2)`. This is the shape `get_opcodes`
    documents: the runs tile both token lists in order, `equal` runs have
    equal lengths on both sides, and they pair equal tokens (`WellFormed`).
    The loops themselves only need the runs to lie inside the two lists
    (`OpsFit`).
- **Times are `real`.** `np.mean` is the exact arithmetic mean, and
  `float('inf')` as "no candidate yet" is `None`.
- **A printed row is a `FileRow`:**
  - `Skipped`: a file whose TextGrid is missing, for which the script prints
    nothing;
  - `NoMatches`: the "0 matches" line;
  - `Matched(matches, words, meanDeviation)`.

Three behaviours of the scripts worth noting:

- `normalize` in `robust_benchmark.py` removes every character outside `\w`
  and `\s`, then lowercases. It neither trims nor collapses whitespace, so
  `" Hello,"` becomes `" hello"` (`RobustBenchmark.NormalizeKeepsSpaces`).
- `match_count` in `robust_benchmark.py` is bumped only for pairs whose
  difference is kept. A file of three equal tokens with one pair 0.55 s apart
  counts two matches, not three (`RobustBenchmark.ThreeWordExample`).
- `debug_whisper.py` normalises the whole transcript as one string before
  splitting it, so only the transcript's outer punctuation goes. Inner commas
  stay on their tokens (`DebugWhisper.InnerPunctuationKept`).

## Model

| member | source | states |
|---|---|---|
| Text.LowerFacts | scripts/Experiments/robust_benchmark.py:18 | the result of `lower` has the input's length, each character is the lowered input character, and none is upper case |
| Text.LowerIdempotent | scripts/Experiments/debug_whisper.py:11 | lowercasing twice is lowercasing once |
| Text.LowerAppend | scripts/Experiments/debug_whisper.py:11 | lowercasing distributes over concatenation |
| Text.StripLeftIsSuffix | mfa_assignment/scripts/Experiments/benchmark.py:17 | `lstrip(chars)` removes a prefix made only of `chars` and stops at the first character outside `chars` |
| Text.StripRightIsPrefix | mfa_assignment/scripts/Experiments/benchmark.py:17 | `rstrip(chars)` removes a suffix made only of `chars` and stops at the last character outside `chars` |
| Text.StripIsTrim | mfa_assignment/scripts/Experiments/benchmark.py:17 | `strip(chars)` returns a contiguous slice `s[i..j]`; everything before `i` and from `j` on is in `chars`; the result neither starts nor ends with a character of `chars` |
| Text.StripLeftPrefix | mfa_assignment/scripts/Experiments/benchmark.py:17 | any prefix of `chars` in front of text not starting with one is removed whole |
| Text.StripRightSuffix | mfa_assignment/scripts/Experiments/benchmark.py:17 | any suffix of `chars` behind text not ending with one is removed whole |
| Text.StripLeftNoop | mfa_assignment/scripts/Experiments/benchmark.py:17 | text not starting with a character of `chars` is left alone by `lstrip` |
| Text.StripRightNoop | mfa_assignment/scripts/Experiments/benchmark.py:17 | text not ending with a character of `chars` is left alone by `rstrip` |
| Text.StripIdempotent | mfa_assignment/scripts/Experiments/benchmark.py:17 | stripping twice is stripping once |
| Text.StripEmptyIff | mfa_assignment/scripts/Experiments/check_dict.py:4 | `strip` gives the empty string exactly when every character is in the stripped set |
| Text.SplitFields | scripts/Experiments/debug_whisper.py:35 | every field `split()` returns is non-empty and holds no whitespace |
| Text.SplitEmptyIff | mfa_assignment/scripts/Experiments/check_dict.py:6 | `split()` returns no field exactly when the text is whitespace only |
| Text.SplitJoin | scripts/Experiments/debug_whisper.py:35 | splitting fields joined by single spaces gives back exactly those fields (round trip) |
| Text.SplitLeadingSpace | scripts/Experiments/debug_whisper.py:35 | leading whitespace does not change the fields |
| Text.PrintableField | scripts/Experiments/debug_whisper.py:35 | a non-empty run of printable characters other than the space is a field |
| Text.JoinLower | scripts/Experiments/debug_whisper.py:30 | lowercase fields joined by spaces form lowercase text |
| Text.JoinEnds | scripts/Experiments/debug_whisper.py:30 | joined fields start with the first field's first character and end with the last field's last character |
| Tiers.KeepSpeechAppend | scripts/eval_metrics.py:30-33 | the silence filter distributes over concatenation, so it keeps tier order |
| Tiers.KeepSpeechMembers | scripts/Experiments/robust_benchmark.py:35-36 | exactly the intervals whose mark is not `""`, `"sil"` or `"sp"` are kept, and the result is no longer than the tier |
| Tiers.KeepSpeechNoSilence | scripts/Experiments/robust_benchmark.py:35-36 | a tier without silence is kept whole |
| Tiers.KeepSpeechIdempotent | scripts/Experiments/robust_benchmark.py:35-36 | filtering twice is filtering once |
| Tiers.SilenceDropped | scripts/eval_metrics.py:32-33 | a silence interval anywhere in a tier changes nothing that is kept |
| Tiers.WordsSnoc | mfa_assignment/scripts/Experiments/benchmark.py:39-44 | appending one interval adds its `(normalised mark, minTime)` record exactly when it is not silence |
| Tiers.CollectWords | mfa_assignment/scripts/Experiments/benchmark.py:38-44 | the `mfa_words` loop, which tests `interval.mark and interval.mark not in ["", "sil", "sp"]`, builds exactly the normalised, timed records of the non-silence intervals in tier order (also scripts/Experiments/robust_benchmark.py:34-37) |
| Stats.SumAppend | scripts/Experiments/robust_benchmark.py:71 | the sum of a concatenation is the sum of the sums |
| Stats.SumBounds | scripts/eval_metrics.py:52 | values in `[lo, hi]` sum to between `lo·n` and `hi·n` |
| Stats.SumBelow | scripts/Experiments/robust_benchmark.py:78 | `n > 0` values below `hi` sum to below `hi·n` |
| Stats.MeanBounds | scripts/eval_metrics.py:52 | the mean of values in `[lo, hi]` is in `[lo, hi]` |
| Stats.MeanBelow | scripts/Experiments/robust_benchmark.py:78 | the mean of values in `[0, hi)` is in `[0, hi)` |
| Stats.PooledMean | scripts/Experiments/robust_benchmark.py:69-78 | the mean of pooled samples is their total sum over their total count, not the mean of the per-file means |
| Stats.FileRowsAt | mfa_assignment/scripts/Experiments/benchmark.py:29-82 | one row per audio file in order, row `k` being the row of file `k` alone (the file loops of both benchmarks, also scripts/Experiments/robust_benchmark.py:26-74) |
| EvalMetrics.BoundsAreValid | scripts/eval_metrics.py:7-39 | durations in the closed range `[0.03, 1.0]`, including both bounds, are not outliers |
| EvalMetrics.CountOutliersBound | scripts/eval_metrics.py:39-40 | the outlier count is at most the phone count; it equals it exactly when every phone is an outlier, and is 0 exactly when none is |
| EvalMetrics.FileCountsSnoc | scripts/eval_metrics.py:32-40 | one more interval adds 1 to `file_total` exactly when it is not silence, and 1 to `file_bad` exactly when it is not silence and its duration is below 0.03 or above 1.0 |
| EvalMetrics.SilenceNotCounted | scripts/eval_metrics.py:32-33 | a `""`, `"sil"` or `"sp"` interval anywhere in the tier adds to neither count |
| EvalMetrics.FileBadAtMostTotal | scripts/eval_metrics.py:35-41 | `0 <= file_bad <= file_total` |
| EvalMetrics.ScoreRange | scripts/eval_metrics.py:43-46 | the score is in `[0, 100]`; with phones it is 100 exactly when no phone is an outlier; it is 0 exactly when every phone is an outlier (including the explicit 0 for a file without phones) |
| EvalMetrics.RowScoreRange | scripts/eval_metrics.py:43-49 | every file's printed score is a percentage |
| EvalMetrics.RowsAt | scripts/eval_metrics.py:23-49 | one row per file in file order; row `k` is the score and outlier count of file `k` alone, and its score is in `[0, 100]` |
| EvalMetrics.ScoresSnoc | scripts/eval_metrics.py:48 | appending a row appends its score to `file_scores` |
| EvalMetrics.ScanTier | scripts/eval_metrics.py:27-41 | the interval loop ends with `file_total` = non-silence phones, `file_bad` = outliers among them, `file_bad <= file_total`, and `bad_phones` raised by exactly `file_bad` |
| EvalMetrics.FileScore | scripts/eval_metrics.py:43-46 | the score computed inline is the specified score, and it is in `[0, 100]` |
| EvalMetrics.ScanFiles | scripts/eval_metrics.py:23-49 | the file loop builds one row per file in order, `file_scores` as the rows' scores, and `bad_phones` as the sum of `file_bad` over all files |
| EvalMetrics.EvaluateQuality | scripts/eval_metrics.py:10-52 | no files gives only the notice; otherwise one row per file (row `f` the row of file `f`), `bad_phones` the total, and `avg_score` the unweighted mean of the per-file scores, which lies in `[0, 100]` |
| RobustBenchmark.Normalize | scripts/Experiments/robust_benchmark.py:16-18 | the result holds only word characters and whitespace, and no upper-case letter |
| RobustBenchmark.RemovePunctuationKept | scripts/Experiments/robust_benchmark.py:18 | `re.sub(r'[^\w\s]', '', s)` leaves only word characters and whitespace |
| RobustBenchmark.RemovePunctuationAppend | scripts/Experiments/robust_benchmark.py:18 | the substitution works character by character over a concatenation |
| RobustBenchmark.RemovePunctuationNoop | scripts/Experiments/robust_benchmark.py:18 | text of word characters and whitespace is unchanged by the substitution |
| RobustBenchmark.NormalizeAppend | scripts/Experiments/robust_benchmark.py:16-18 | `normalize` of a concatenation is the concatenation of the results |
| RobustBenchmark.NormalizeChar | scripts/Experiments/robust_benchmark.py:16-18 | a single character is dropped when it is neither a word character nor whitespace, and lowercased otherwise |
| RobustBenchmark.NormalizeIdempotent | scripts/Experiments/robust_benchmark.py:16-18 | `normalize(normalize(x)) == normalize(x)` |
| RobustBenchmark.LowerFixed | scripts/Experiments/robust_benchmark.py:18 | text without upper-case letters is its own lowercase |
| RobustBenchmark.NormalizeKeepsSpaces | scripts/Experiments/robust_benchmark.py:18 | leading whitespace is kept and a trailing punctuation mark dropped: whitespace + word + mark gives the same whitespace + the lowered word (e.g. `" Hello,"` gives `" hello"`) |
| RobustBenchmark.PartitionInBounds | scripts/Experiments/robust_benchmark.py:56-61 | under opcodes that tile both token lists, every `mfa_words[i1+k]` and `whisper_words[j1+k]` index of an `equal` run is in bounds |
| RobustBenchmark.PartitionConsecutive | scripts/Experiments/robust_benchmark.py:56 | tiling opcodes start at `(0, 0)`, end at the two lengths, and each run starts where the previous one ended; there is none only for two empty lists |
| RobustBenchmark.BelowCutoffAppend | scripts/Experiments/robust_benchmark.py:71 | joining two lists of kept differences keeps every value in `[0, 0.5)` |
| RobustBenchmark.RunDiffsBounded | scripts/Experiments/robust_benchmark.py:59-67 | a run keeps at most one difference per pair, each in `[0, 0.5)` |
| RobustBenchmark.DiffsBounded | scripts/Experiments/robust_benchmark.py:62-66 | every value in `file_diffs` is `>= 0` and `< 0.5` |
| RobustBenchmark.DiffsCount | scripts/Experiments/robust_benchmark.py:65-72 | under tiling opcodes, `file_diffs` has at most `len(mfa_words)` entries, because the `equal` runs are disjoint on the reference side |
| RobustBenchmark.RunDiffsMembers | scripts/Experiments/robust_benchmark.py:59-66 | a value is kept from a run exactly when it is the difference of one of its pairs and is below 0.5 |
| RobustBenchmark.DiffsUpToMembers | scripts/Experiments/robust_benchmark.py:56-67 | a difference is kept from the first `u` opcodes exactly when one of them contributes it |
| RobustBenchmark.OpDiffsPair | scripts/Experiments/robust_benchmark.py:57-66 | what a run contributes comes from one of its pairs `k`, comparing `mfa_words[i1+k]` with `whisper_words[j1+k]` |
| RobustBenchmark.PairOpDiffs | scripts/Experiments/robust_benchmark.py:57-66 | the difference of a pair below 0.5 is among what its run contributes |
| RobustBenchmark.DiffsMembers | scripts/Experiments/robust_benchmark.py:56-67 | a value is in `file_diffs` exactly when it is the difference of pair `k` of an `equal` run and is below 0.5; other tags contribute nothing |
| RobustBenchmark.KeptPairSameWord | scripts/Experiments/robust_benchmark.py:48-61 | under well-formed opcodes every kept difference compares a reference and a hypothesis word with the same normalised text |
| RobustBenchmark.ThreeWordExample | scripts/Experiments/robust_benchmark.py:65-67 | three equal tokens at 0, 1, 2 s against 0.05, 1.02, 2.55 s keep `[0.05, 0.02]`, so `match_count` is 2, not 3 |
| RobustBenchmark.CollectRun | scripts/Experiments/robust_benchmark.py:59-67 | the pair loop of one `equal` run appends exactly the run's kept differences and counts them |
| RobustBenchmark.CollectFileDiffs | scripts/Experiments/robust_benchmark.py:53-67 | the opcode loop builds exactly `file_diffs` for those opcodes, and `match_count == len(file_diffs)` |
| RobustBenchmark.InputOkRow | scripts/Experiments/robust_benchmark.py:51-72 | opcodes from `SequenceMatcher` fit the token lists, and a printed row never claims more matches than the file has reference words |
| RobustBenchmark.AllDiffsBounded | scripts/Experiments/robust_benchmark.py:69-71 | every pooled difference is in `[0, 0.5)` |
| RobustBenchmark.BenchmarkFile | scripts/Experiments/robust_benchmark.py:30-74 | one file's body: nothing for a missing TextGrid; otherwise the file's kept differences, and the row with `match_count`, `len(mfa_words)` and the file mean, or "0 matches" |
| RobustBenchmark.BenchmarkFiles | scripts/Experiments/robust_benchmark.py:26-74 | the file loop builds the rows and `all_diffs` as the in-order concatenation of every file's `file_diffs` |
| RobustBenchmark.BenchmarkRobust | scripts/Experiments/robust_benchmark.py:20-81 | one row per file (row `k` that of file `k`), `all_diffs` pooled in file order with every value in `[0, 0.5)`, and an MAE exactly when something was kept, equal to the pooled mean and in `[0, 0.5)` |
| Benchmark.NormalizeWordIsTrim | mfa_assignment/scripts/Experiments/benchmark.py:15-17 | `normalize_word` is the lowered slice `w[i..j]`; only `.,?!"` characters are cut, both ends of the result are outside that set, and it has no upper-case letter |
| Benchmark.NormalizeWordIdempotent | mfa_assignment/scripts/Experiments/benchmark.py:15-17 | `normalize_word` applied twice equals applied once (also scripts/Experiments/debug_whisper.py:10-11) |
| Benchmark.NormalizeWordWrapped | mfa_assignment/scripts/Experiments/benchmark.py:15-17 | any amount of `.,?!"` around a word whose own ends are not punctuation comes off, leaving the lowered word with its inner characters intact |
| Benchmark.NormalizeWordExample | mfa_assignment/scripts/Experiments/benchmark.py:15-17 | `"The,"` and `"the"` both normalise to `"the"` |
| Benchmark.NormalizeWordKeepsInner | mfa_assignment/scripts/Experiments/benchmark.py:15-17 | inner punctuation stays: `"\"Don't.\""` becomes `"don't"` |
| Benchmark.BestMatchIsMinimum | mfa_assignment/scripts/Experiments/benchmark.py:63-71 | `best_match_diff` stays infinite exactly when no hypothesis word has the same text within 0.5 s; otherwise it is the difference to one such word and no such word is closer |
| Benchmark.DeviationsAppend | mfa_assignment/scripts/Experiments/benchmark.py:62-75 | reference words are matched independently: the deviations of a concatenation are the concatenation of the deviations |
| Benchmark.DeviationsBounded | mfa_assignment/scripts/Experiments/benchmark.py:62-75 | at most one deviation per reference word, each in `[0, 0.5)` |
| Benchmark.NoCandidateNoDeviation | mfa_assignment/scripts/Experiments/benchmark.py:73-75 | a reference word with no same-text hypothesis word inside the window records nothing |
| Benchmark.SharedBestMatch | mfa_assignment/scripts/Experiments/benchmark.py:62-71 | hypothesis words are not consumed: one hypothesis "the" is the best match of two reference words "the" |
| Benchmark.MatchFile | mfa_assignment/scripts/Experiments/benchmark.py:58-75 | the nested matching loop builds exactly the specified deviations, and `matches == len(deviations) <= len(mfa_words)` |
| Benchmark.AllDeviationsBounded | mfa_assignment/scripts/Experiments/benchmark.py:79 | every pooled deviation is in `[0, 0.5)` |
| Benchmark.AllDeviationsAppend | mfa_assignment/scripts/Experiments/benchmark.py:77-82 | the pool over two batches of files is the pool of the first followed by the pool of the second |
| Benchmark.MaePooled | mfa_assignment/scripts/Experiments/benchmark.py:85-87 | the overall error weighs every deviation equally: over two batches, its sum and its count add up |
| Benchmark.BenchmarkFile | mfa_assignment/scripts/Experiments/benchmark.py:33-82 | one file's body: nothing for a missing TextGrid; otherwise its deviations, and the row with `matches`, `len(mfa_words)` and the file mean, or "0 matches" |
| Benchmark.BenchmarkFiles | mfa_assignment/scripts/Experiments/benchmark.py:29-82 | the file loop builds the rows and `all_deviations` as the in-order concatenation of every file's deviations |
| Benchmark.BenchmarkAlignment | mfa_assignment/scripts/Experiments/benchmark.py:26-89 | one row per file (row `k` that of file `k`), `all_deviations` pooled in file order, and an MAE exactly when something was recorded, equal to the pooled mean and in `[0, 0.5)` |
| DebugWhisper.MfaWords | scripts/Experiments/debug_whisper.py:26 | one entry per non-silence interval, in tier order, so the list is no longer than the tier; entry `k` is the normalised mark of the `k`-th kept interval, which is an interval of the tier and not `""`, `"sil"` or `"sp"` |
| DebugWhisper.DebugFirstFile | scripts/Experiments/debug_whisper.py:15-35 | no audio file gives no listing; where the first file has no TextGrid the script raises and the model returns `MissingTextGrid`; otherwise one reference word per non-silence interval, each already normal (normalising it again changes nothing, no capitals), and transcript tokens that are non-empty, free of whitespace and free of capitals |
| DebugWhisper.MfaWordsNormalized | scripts/Experiments/debug_whisper.py:26 | every listed reference word is a fixed point of `normalize` and has no capitals |
| DebugWhisper.SilenceNotListed | scripts/Experiments/debug_whisper.py:26 | an interval marked `""`, `"sil"` or `"sp"` anywhere in the tier is not listed |
| DebugWhisper.WhisperTokensAreFields | scripts/Experiments/debug_whisper.py:30-35 | every token is non-empty, holds no whitespace and no upper-case letter; there is no token exactly when the normalised transcript is blank |
| DebugWhisper.TokensAreLower | scripts/Experiments/debug_whisper.py:35 | splitting text without capitals gives tokens without capitals |
| DebugWhisper.CleanTranscriptRoundTrip | scripts/Experiments/debug_whisper.py:30-35 | a transcript of clean words (lowercase, no whitespace, no outer punctuation) joined by spaces is listed as exactly those words |
| DebugWhisper.TranscriptNormalized | scripts/Experiments/debug_whisper.py:30 | normalising `" Hello, world."` as a whole keeps its leading space and inner comma: `" hello, world"` |
| DebugWhisper.TranscriptSplit | scripts/Experiments/debug_whisper.py:35 | `" hello, world"` splits into `["hello,", "world"]` |
| DebugWhisper.MarkNormalized | scripts/Experiments/debug_whisper.py:26 | the mark `"Hello,"` normalises to `"hello"` |
| DebugWhisper.InnerPunctuationKept | scripts/Experiments/debug_whisper.py:26-35 | the transcript tokens keep inner punctuation, so the reference word `"hello"` is not among the tokens `["hello,", "world"]` of the same speech |
| CheckDict.ProblemIsSingleField | mfa_assignment/scripts/Experiments/check_dict.py:4-7 | a line is blank exactly when it has no field, so a reported line is one with exactly one field |
| CheckDict.EntryPasses | mfa_assignment/scripts/Experiments/check_dict.py:6-7 | a word, whitespace and then a phone is never reported, whatever follows |
| CheckDict.ReportsInFile | mfa_assignment/scripts/Experiments/check_dict.py:3-8 | every report carries a 1-based line number of the file and that line's text |
| CheckDict.ReportsProblems | mfa_assignment/scripts/Experiments/check_dict.py:3-8 | every line is examined: line `i + 1` is reported exactly when it is not blank and has fewer than two fields |
| CheckDict.ReportsOrdered | mfa_assignment/scripts/Experiments/check_dict.py:3-8 | reported line numbers are strictly increasing |
| CheckDict.ReportsExact | mfa_assignment/scripts/Experiments/check_dict.py:3-8 | the three facts together: exactly the problem lines are reported, once each, with their own number and text, in file order |
| CheckDict.CheckDict | mfa_assignment/scripts/Experiments/check_dict.py:1-8 | the line loop emits exactly the specified reports |

## Left out

- Whisper (`load_model`, `transcribe`) is a foreign machine-learning call. Its
  flattened word list, or its transcript text, is an input.
- TextGrid parsing is a foreign library call. A tier is an input sequence of
  intervals.
- `difflib.SequenceMatcher` is not modelled: this project has no aligner of
  its own and makes no claim about longest common subsequences. Its opcodes
  are an input, with the documented shape stated as `WellFormed`.
- Globbing, path checks and file reading are file I/O. Files are an input
  sequence in directory order. A missing TextGrid is `None`, which the
  benchmarks skip with `continue`.
- `debug_whisper.py` prints its header and then raises on a missing
  TextGrid. `DebugWhisper.DebugFirstFile` returns `MissingTextGrid` where the
  script raises; the exception is not modelled.
- Printing, f-string widths and rounding are not modelled. Rows and totals are
  returned as values.
- Floating point is modelled as exact `real` arithmetic.
- Characters are 7-bit ASCII. Unicode `\w`, `\s`, `isspace` and `lower` are
  restricted to their ASCII parts.
- `total_phones` in `scripts/eval_metrics.py` is initialised and never used,
  so it has no counterpart.
- The `interval.mark and` test in the `mfa_words` loops is kept in
  `Tiers.CollectWords`. It is redundant, because `""` is already one of the
  silence marks.
- `normalize` in `debug_whisper.py` has the same text as `normalize_word` in
  `benchmark.py`. It is modelled once, as `Benchmark.NormalizeWord`.
- `mfa_assignment/scripts/Experiments/visualize.py`,
  `mfa_assignment/scripts/praat_viz.py`, `mfa_assignment/scripts/prep_data.py`
  and `scripts/setup_dict.py` are not part of this model. They plot, copy
  files and exit, and contain no comparison or scoring logic.
- RobustBenchmark.FileDiffs: opcodes that do not fit the token lists
  contribute nothing. `SequenceMatcher` never returns such opcodes, and
  `BenchmarkRobust` requires that they fit.
- The scripts are sequential. No concurrency is modelled.
