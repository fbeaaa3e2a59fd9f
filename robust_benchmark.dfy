/** The diff-based timing benchmark of `scripts/Experiments/robust_benchmark.py`:
    reference words (from the TextGrid words tier) and hypothesis words (from
    Whisper) are normalized, their token lists are diffed, and the start times
    of the tokens paired inside `equal` runs are compared. */
module RobustBenchmark {
  import opened Text
  import opened Tiers
  import opened Stats

  // ---------------------------------------------------------------------------
  // normalize

  /** Characters that survive `re.sub(r'[^\w\s]', '', text)`. */
  predicate Kept(c: Char) {
    IsWordChar(c) || IsSpace(c)
  }

  /** The characters of `s` that `re.sub(r'[^\w\s]', '', s)` keeps, in order. */
  function RemovePunctuation(s: Str): Str {
    if s == [] then [] else RemovePunctuation(s[..|s| - 1]) + (if Kept(s[|s| - 1]) then [s[|s| - 1]] else [])
  }

  /** `normalize`: drop every character that is neither a word character nor
      whitespace, then lowercase. The result holds only word characters and
      whitespace, and no upper-case letter. */
  function Normalize(text: Str): (r: Str)
    ensures forall k :: 0 <= k < |r| ==> Kept(r[k]) && !IsUpper(r[k])
  {
    RemovePunctuationKept(text);
    Lower(RemovePunctuation(text))
  }

  lemma {:induction false} RemovePunctuationKept(s: Str)
    ensures forall k :: 0 <= k < |RemovePunctuation(s)| ==> Kept(RemovePunctuation(s)[k])
    decreases |s|
  {
    if s != [] {
      RemovePunctuationKept(s[..|s| - 1]);
    }
  }

  lemma {:induction false} RemovePunctuationAppend(a: Str, b: Str)
    ensures RemovePunctuation(a + b) == RemovePunctuation(a) + RemovePunctuation(b)
    decreases |b|
  {
    if b == [] {
      assert a + b == a;
    } else {
      assert (a + b)[..|a + b| - 1] == a + b[..|b| - 1];
      RemovePunctuationAppend(a, b[..|b| - 1]);
    }
  }

  /** `normalize` works character by character: on a concatenation it is the
      concatenation of the results, and a single character is either dropped
      or lowercased. Whitespace is neither trimmed nor collapsed. */
  lemma NormalizeAppend(a: Str, b: Str)
    ensures Normalize(a + b) == Normalize(a) + Normalize(b)
  {
    RemovePunctuationAppend(a, b);
  }

  lemma NormalizeChar(c: Char)
    ensures Normalize([c]) == if Kept(c) then [LowerChar(c)] else []
  {
    assert [c][..0] == [];
    assert RemovePunctuation([c]) == if Kept(c) then [c] else [];
  }

  lemma {:induction false} RemovePunctuationNoop(s: Str)
    requires forall k :: 0 <= k < |s| ==> Kept(s[k])
    ensures RemovePunctuation(s) == s
    decreases |s|
  {
    if s != [] {
      RemovePunctuationNoop(s[..|s| - 1]);
    }
  }

  /** `normalize` is idempotent. */
  lemma NormalizeIdempotent(text: Str)
    ensures Normalize(Normalize(text)) == Normalize(text)
  {
    var n := Normalize(text);
    RemovePunctuationNoop(n);
    LowerFixed(n);
  }

  lemma LowerFixed(s: Str)
    requires forall k :: 0 <= k < |s| ==> !IsUpper(s[k])
    ensures Lower(s) == s
  {
  }

  /** Leading whitespace is kept and a trailing punctuation mark dropped:
      `" Hello,"` becomes `" hello"`, not `"hello"`. */
  lemma NormalizeKeepsSpaces(ws: Str, w: Str, p: Char)
    requires forall k :: 0 <= k < |ws| ==> IsSpace(ws[k])
    requires forall k :: 0 <= k < |w| ==> IsWordChar(w[k])
    requires !Kept(p)
    ensures Normalize(ws + w + [p]) == ws + Lower(w)
  {
    NormalizeAppend(ws + w, [p]);
    NormalizeChar(p);
    NormalizeAppend(ws, w);
    RemovePunctuationNoop(ws);
    RemovePunctuationNoop(w);
    LowerFixed(ws);
    assert ws + w + [p] == (ws + w) + [p];
  }

  // ---------------------------------------------------------------------------
  // opcodes

  datatype Tag = Equal | Replace | Delete | Insert

  /** One `(tag, i1, i2, j1, j2)` tuple of `SequenceMatcher.get_opcodes()`:
      `a[i1:i2]` of the reference tokens against `b[j1:j2]` of the hypothesis. */
  datatype Opcode = Opcode(tag: Tag, i1: nat, i2: nat, j1: nat, j2: nat)

  /** What `get_opcodes` documents for the shape of one run: the ranges are
      inside sequences of lengths `n` and `m`, an `equal` run is non-empty and
      has the same length on both sides, a `replace` run is non-empty on both
      sides, `delete` only on the reference side and `insert` only on the
      hypothesis side. */
  predicate RunOk(op: Opcode, n: nat, m: nat) {
    && op.i1 <= op.i2 <= n
    && op.j1 <= op.j2 <= m
    && match op.tag
       case Equal => op.i1 < op.i2 && op.i2 - op.i1 == op.j2 - op.j1
       case Replace => op.i1 < op.i2 && op.j1 < op.j2
       case Delete => op.i1 < op.i2 && op.j1 == op.j2
       case Insert => op.i1 == op.i2 && op.j1 < op.j2
  }

  /** The runs from `ops[s]` on cover `[i, n)` and `[j, m)` contiguously, in
      order, without overlap or gap. */
  predicate Tiles(ops: seq<Opcode>, s: nat, n: nat, m: nat, i: nat, j: nat)
    requires s <= |ops|
    decreases |ops| - s
  {
    if s == |ops| then i == n && j == m
    else
      && ops[s].i1 == i && ops[s].j1 == j
      && RunOk(ops[s], n, m)
      && Tiles(ops, s + 1, n, m, ops[s].i2, ops[s].j2)
  }

  /** Position `k` of runs starting at `i` in `a` and `j` in `b` holds the same token. */
  predicate SameToken(a: seq<Str>, b: seq<Str>, i: nat, j: nat, k: nat) {
    i + k < |a| && j + k < |b| && a[i + k] == b[j + k]
  }

  /** Every `equal` run pairs equal tokens position by position. */
  predicate EqualRunsMatch(ops: seq<Opcode>, a: seq<Str>, b: seq<Str>) {
    forall n, k :: 0 <= n < |ops| && ops[n].tag == Equal && 0 <= k < ops[n].i2 - ops[n].i1
      ==> SameToken(a, b, ops[n].i1, ops[n].j1, k)
  }

  /** The runs partition index ranges `[0, n)` and `[0, m)`. */
  predicate Partitions(ops: seq<Opcode>, n: nat, m: nat) {
    Tiles(ops, 0, n, m, 0, 0)
  }

  /** The opcodes partition both token sequences and their `equal` runs match. */
  predicate WellFormed(ops: seq<Opcode>, a: seq<Str>, b: seq<Str>) {
    Partitions(ops, |a|, |b|) && EqualRunsMatch(ops, a, b)
  }

  /** The index ranges of a run are inside sequences of lengths `n` and `m`,
      and an `equal` run has the same length on both sides. */
  predicate InBounds(op: Opcode, n: nat, m: nat) {
    op.i1 <= op.i2 <= n && op.j1 <= op.j2 <= m && (op.tag == Equal ==> op.i2 - op.i1 == op.j2 - op.j1)
  }

  predicate AllInBounds(ops: seq<Opcode>, n: nat, m: nat) {
    forall k :: 0 <= k < |ops| ==> InBounds(ops[k], n, m)
  }

  lemma {:induction false} TilesInBounds(ops: seq<Opcode>, s: nat, n: nat, m: nat, i: nat, j: nat)
    requires s <= |ops| && Tiles(ops, s, n, m, i, j)
    ensures forall k :: s <= k < |ops| ==> InBounds(ops[k], n, m)
    decreases |ops| - s
  {
    if s < |ops| {
      TilesInBounds(ops, s + 1, n, m, ops[s].i2, ops[s].j2);
    }
  }

  lemma PartitionInBounds(ops: seq<Opcode>, n: nat, m: nat)
    requires Partitions(ops, n, m)
    ensures AllInBounds(ops, n, m)
  {
    TilesInBounds(ops, 0, n, m, 0, 0);
  }

  /** The runs are consecutive: each starts where the previous one ended, so
      the reference ranges of the `equal` runs are disjoint. */
  lemma {:induction false} TilesConsecutive(ops: seq<Opcode>, s: nat, n: nat, m: nat, i: nat, j: nat)
    requires s <= |ops| && Tiles(ops, s, n, m, i, j)
    ensures forall k :: s <= k < |ops| - 1 ==> ops[k].i2 == ops[k + 1].i1 && ops[k].j2 == ops[k + 1].j1
    ensures s < |ops| ==> ops[s].i1 == i && ops[s].j1 == j && ops[|ops| - 1].i2 == n && ops[|ops| - 1].j2 == m
    ensures s == |ops| ==> i == n && j == m
    decreases |ops| - s
  {
    if s < |ops| {
      TilesConsecutive(ops, s + 1, n, m, ops[s].i2, ops[s].j2);
    }
  }

  /** Well-formed opcodes start at `(0, 0)`, end at the two lengths, and each
      run starts where the previous one ended. */
  lemma PartitionConsecutive(ops: seq<Opcode>, n: nat, m: nat)
    requires Partitions(ops, n, m)
    ensures ops == [] <==> n == 0 && m == 0
    ensures ops != [] ==> ops[0].i1 == 0 && ops[0].j1 == 0 && ops[|ops| - 1].i2 == n && ops[|ops| - 1].j2 == m
    ensures forall k :: 0 <= k < |ops| - 1 ==> ops[k].i2 == ops[k + 1].i1 && ops[k].j2 == ops[k + 1].j1
  {
    TilesConsecutive(ops, 0, n, m, 0, 0);
    if ops != [] {
      assert RunOk(ops[0], n, m);
    }
  }

  // ---------------------------------------------------------------------------
  // collecting timing differences

  /** Timing differences of 0.5 s or more are treated as alignment glitches. */
  const Cutoff: real := 0.5

  /** Every value is a kept difference: non-negative and below the cutoff. */
  predicate BelowCutoff(xs: seq<real>) {
    forall k :: 0 <= k < |xs| ==> 0.0 <= xs[k] < Cutoff
  }

  lemma BelowCutoffAppend(a: seq<real>, b: seq<real>)
    requires BelowCutoff(a) && BelowCutoff(b)
    ensures BelowCutoff(a + b)
  {
  }

  /** `abs(mfa_time - whis_time)` for pair `k` of a run starting at `(i1, j1)`. */
  function PairDiff(mfa: seq<Timed>, whis: seq<Timed>, i1: nat, j1: nat, k: nat): real
    requires i1 + k < |mfa| && j1 + k < |whis|
  {
    Abs(mfa[i1 + k].start - whis[j1 + k].start)
  }

  /** The differences kept from the first `n` pairs of a run starting at `(i1, j1)`. */
  function RunDiffs(mfa: seq<Timed>, whis: seq<Timed>, i1: nat, j1: nat, n: nat): seq<real>
    requires i1 + n <= |mfa| && j1 + n <= |whis|
  {
    if n == 0 then []
    else
      var d := PairDiff(mfa, whis, i1, j1, n - 1);
      RunDiffs(mfa, whis, i1, j1, n - 1) + (if d < Cutoff then [d] else [])
  }

  /** The differences one opcode contributes: only `equal` runs contribute. */
  function OpDiffs(op: Opcode, mfa: seq<Timed>, whis: seq<Timed>): seq<real>
    requires InBounds(op, |mfa|, |whis|)
  {
    if op.tag == Equal then RunDiffs(mfa, whis, op.i1, op.j1, op.i2 - op.i1) else []
  }

  /** `file_diffs` after consuming the first `n` opcodes. */
  function DiffsUpTo(ops: seq<Opcode>, mfa: seq<Timed>, whis: seq<Timed>, n: nat): seq<real>
    requires n <= |ops| && AllInBounds(ops, |mfa|, |whis|)
  {
    if n == 0 then [] else DiffsUpTo(ops, mfa, whis, n - 1) + OpDiffs(ops[n - 1], mfa, whis)
  }

  /** `file_diffs` after consuming all the opcodes. */
  function Diffs(ops: seq<Opcode>, mfa: seq<Timed>, whis: seq<Timed>): seq<real>
    requires AllInBounds(ops, |mfa|, |whis|)
  {
    DiffsUpTo(ops, mfa, whis, |ops|)
  }

  lemma {:induction false} RunDiffsBounded(mfa: seq<Timed>, whis: seq<Timed>, i1: nat, j1: nat, n: nat)
    requires i1 + n <= |mfa| && j1 + n <= |whis|
    ensures |RunDiffs(mfa, whis, i1, j1, n)| <= n
    ensures BelowCutoff(RunDiffs(mfa, whis, i1, j1, n))
    decreases n
  {
    if n > 0 {
      RunDiffsBounded(mfa, whis, i1, j1, n - 1);
    }
  }

  lemma {:induction false} DiffsUpToBounded(ops: seq<Opcode>, mfa: seq<Timed>, whis: seq<Timed>, n: nat)
    requires n <= |ops| && AllInBounds(ops, |mfa|, |whis|)
    ensures BelowCutoff(DiffsUpTo(ops, mfa, whis, n))
    decreases n
  {
    if n > 0 {
      var op := ops[n - 1];
      assert InBounds(op, |mfa|, |whis|);
      var before := DiffsUpTo(ops, mfa, whis, n - 1);
      var added := OpDiffs(op, mfa, whis);
      assert BelowCutoff(before) by {
        DiffsUpToBounded(ops, mfa, whis, n - 1);
      }
      assert BelowCutoff(added) by {
        if op.tag == Equal {
          RunDiffsBounded(mfa, whis, op.i1, op.j1, op.i2 - op.i1);
        }
      }
      BelowCutoffAppend(before, added);
      assert DiffsUpTo(ops, mfa, whis, n) == before + added;
    }
  }

  /** Every kept difference is non-negative and below the cutoff. */
  lemma DiffsBounded(ops: seq<Opcode>, mfa: seq<Timed>, whis: seq<Timed>)
    requires AllInBounds(ops, |mfa|, |whis|)
    ensures BelowCutoff(Diffs(ops, mfa, whis))
  {
    DiffsUpToBounded(ops, mfa, whis, |ops|);
  }

  /** With consecutive runs starting at 0, the differences from the first `u`
      runs are at most the reference words those runs cover. */
  lemma {:induction false} DiffsUpToCount(ops: seq<Opcode>, mfa: seq<Timed>, whis: seq<Timed>, u: nat)
    requires u <= |ops| && AllInBounds(ops, |mfa|, |whis|)
    requires ops != [] ==> ops[0].i1 == 0
    requires forall k :: 0 <= k < |ops| - 1 ==> ops[k].i2 == ops[k + 1].i1
    ensures |DiffsUpTo(ops, mfa, whis, u)| <= if u == 0 then 0 else ops[u - 1].i2
    decreases u
  {
    if u > 0 {
      var op := ops[u - 1];
      DiffsUpToCount(ops, mfa, whis, u - 1);
      if op.tag == Equal {
        RunDiffsBounded(mfa, whis, op.i1, op.j1, op.i2 - op.i1);
      }
      if u > 1 {
        assert ops[u - 2].i2 == op.i1;
      }
    }
  }

  /** Each reference word is compared at most once, because the `equal` runs
      of a partition are disjoint: there are no more kept differences than
      reference words. */
  lemma DiffsCount(ops: seq<Opcode>, mfa: seq<Timed>, whis: seq<Timed>)
    requires Partitions(ops, |mfa|, |whis|)
    ensures AllInBounds(ops, |mfa|, |whis|)
    ensures |Diffs(ops, mfa, whis)| <= |mfa|
  {
    PartitionInBounds(ops, |mfa|, |whis|);
    PartitionConsecutive(ops, |mfa|, |whis|);
    DiffsUpToCount(ops, mfa, whis, |ops|);
  }

  /** A pair `k` of an `equal` run whose difference is below the cutoff. */
  predicate KeptPair(ops: seq<Opcode>, mfa: seq<Timed>, whis: seq<Timed>, n: int, k: int, d: real) {
    && 0 <= n < |ops| && ops[n].tag == Equal
    && 0 <= k < ops[n].i2 - ops[n].i1
    && ops[n].i1 + k < |mfa| && ops[n].j1 + k < |whis|
    && d == PairDiff(mfa, whis, ops[n].i1, ops[n].j1, k) && d < Cutoff
  }

  lemma {:induction false} RunDiffsMembers(mfa: seq<Timed>, whis: seq<Timed>, i1: nat, j1: nat, n: nat, d: real)
    requires i1 + n <= |mfa| && j1 + n <= |whis|
    ensures d in RunDiffs(mfa, whis, i1, j1, n) <==> exists k :: 0 <= k < n && d == PairDiff(mfa, whis, i1, j1, k) && d < Cutoff
    decreases n
  {
    if n > 0 {
      RunDiffsMembers(mfa, whis, i1, j1, n - 1, d);
    }
  }

  /** A difference is kept from the first `u` runs exactly when one of those
      runs contributes it. */
  lemma {:induction false} DiffsUpToMembers(ops: seq<Opcode>, mfa: seq<Timed>, whis: seq<Timed>, u: nat, d: real)
    requires u <= |ops| && AllInBounds(ops, |mfa|, |whis|)
    ensures d in DiffsUpTo(ops, mfa, whis, u) <==> exists n :: 0 <= n < u && d in OpDiffs(ops[n], mfa, whis)
    decreases u
  {
    if u > 0 {
      var op := ops[u - 1];
      assert InBounds(op, |mfa|, |whis|);
      var before := DiffsUpTo(ops, mfa, whis, u - 1);
      var added := OpDiffs(op, mfa, whis);
      assert DiffsUpTo(ops, mfa, whis, u) == before + added;
      assert d in before <==> exists n :: 0 <= n < u - 1 && d in OpDiffs(ops[n], mfa, whis) by {
        DiffsUpToMembers(ops, mfa, whis, u - 1, d);
      }
      if d in before {
        var n :| 0 <= n < u - 1 && d in OpDiffs(ops[n], mfa, whis);
        assert 0 <= n < u && d in OpDiffs(ops[n], mfa, whis);
      } else if d in added {
        assert 0 <= u - 1 < u && d in OpDiffs(ops[u - 1], mfa, whis);
      }
      if exists n :: 0 <= n < u && d in OpDiffs(ops[n], mfa, whis) {
        var n :| 0 <= n < u && d in OpDiffs(ops[n], mfa, whis);
        if n < u - 1 {
          assert d in before;
        } else {
          assert d in added;
        }
      }
    }
  }

  /** A difference a run contributes comes from one of its kept pairs. */
  lemma OpDiffsPair(ops: seq<Opcode>, mfa: seq<Timed>, whis: seq<Timed>, n: nat, d: real)
    requires n < |ops| && InBounds(ops[n], |mfa|, |whis|)
    requires d in OpDiffs(ops[n], mfa, whis)
    ensures exists k :: KeptPair(ops, mfa, whis, n, k, d)
  {
    var op := ops[n];
    RunDiffsMembers(mfa, whis, op.i1, op.j1, op.i2 - op.i1, d);
    var k :| 0 <= k < op.i2 - op.i1 && d == PairDiff(mfa, whis, op.i1, op.j1, k) && d < Cutoff;
    assert KeptPair(ops, mfa, whis, n, k, d);
  }

  /** The difference of a kept pair is among those its run contributes. */
  lemma PairOpDiffs(ops: seq<Opcode>, mfa: seq<Timed>, whis: seq<Timed>, n: nat, k: nat, d: real)
    requires n < |ops| && InBounds(ops[n], |mfa|, |whis|)
    requires KeptPair(ops, mfa, whis, n, k, d)
    ensures d in OpDiffs(ops[n], mfa, whis)
  {
    var op := ops[n];
    RunDiffsMembers(mfa, whis, op.i1, op.j1, op.i2 - op.i1, d);
  }

  /** A difference is kept exactly when it comes from a pair of an `equal` run
      whose difference is below the cutoff: only `equal` runs contribute, and
      pair `k` of a run compares `mfa[i1 + k]` with `whis[j1 + k]`. */
  lemma DiffsMembers(ops: seq<Opcode>, mfa: seq<Timed>, whis: seq<Timed>, d: real)
    requires AllInBounds(ops, |mfa|, |whis|)
    ensures d in Diffs(ops, mfa, whis) <==> exists n, k :: KeptPair(ops, mfa, whis, n, k, d)
  {
    DiffsUpToMembers(ops, mfa, whis, |ops|, d);
    if d in Diffs(ops, mfa, whis) {
      var n :| 0 <= n < |ops| && d in OpDiffs(ops[n], mfa, whis);
      OpDiffsPair(ops, mfa, whis, n, d);
    }
    if exists n, k :: KeptPair(ops, mfa, whis, n, k, d) {
      var n: nat, k: nat :| KeptPair(ops, mfa, whis, n, k, d);
      PairOpDiffs(ops, mfa, whis, n, k, d);
    }
  }

  /** Under well-formed opcodes a kept difference always compares the start
      times of a reference word and a hypothesis word with the same text. */
  lemma KeptPairSameWord(ops: seq<Opcode>, mfa: seq<Timed>, whis: seq<Timed>, n: int, k: int, d: real)
    requires WellFormed(ops, Texts(mfa), Texts(whis))
    requires KeptPair(ops, mfa, whis, n, k, d)
    ensures mfa[ops[n].i1 + k].word == whis[ops[n].j1 + k].word
  {
    assert SameToken(Texts(mfa), Texts(whis), ops[n].i1, ops[n].j1, k);
  }

  /** A three-word file aligned by one `equal` run: "the", "cat", "sat" at
      0, 1 and 2 seconds against Whisper's 0.05, 1.02 and 2.55 keeps 0.05 and
      0.02, drops the 0.55 pair, and so counts two matches, not three. */
  lemma ThreeWordExample()
    ensures Diffs([Opcode(Equal, 0, 3, 0, 3)],
                  [Timed("the", 0.0), Timed("cat", 1.0), Timed("sat", 2.0)],
                  [Timed("the", 0.05), Timed("cat", 1.02), Timed("sat", 2.55)]) == [0.05, 0.02]
  {
    var mfa := [Timed("the", 0.0), Timed("cat", 1.0), Timed("sat", 2.0)];
    var whis := [Timed("the", 0.05), Timed("cat", 1.02), Timed("sat", 2.55)];
    var ops := [Opcode(Equal, 0, 3, 0, 3)];
    assert PairDiff(mfa, whis, 0, 0, 0) == 0.05;
    assert PairDiff(mfa, whis, 0, 0, 1) == 0.02;
    assert PairDiff(mfa, whis, 0, 0, 2) == 0.55;
    assert RunDiffs(mfa, whis, 0, 0, 3) == [0.05, 0.02];
  }

  /** The pair loop of one `equal` run of `len` pairs starting at `(i1, j1)`:
      it appends the kept differences to `fileDiffs0` and counts them. */
  method CollectRun(mfa: seq<Timed>, whis: seq<Timed>, i1: nat, j1: nat, len: nat,
                    fileDiffs0: seq<real>, matchCount0: nat)
    returns (fileDiffs: seq<real>, matchCount: nat)
    requires i1 + len <= |mfa| && j1 + len <= |whis|
    ensures fileDiffs == fileDiffs0 + RunDiffs(mfa, whis, i1, j1, len)
    ensures matchCount == matchCount0 + |RunDiffs(mfa, whis, i1, j1, len)|
  {
    fileDiffs, matchCount := fileDiffs0, matchCount0;
    var k := 0;
    while k < len
      invariant 0 <= k <= len
      invariant fileDiffs == fileDiffs0 + RunDiffs(mfa, whis, i1, j1, k)
      invariant matchCount == matchCount0 + |RunDiffs(mfa, whis, i1, j1, k)|
    {
      var mfaTime := mfa[i1 + k].start;
      var whisTime := whis[j1 + k].start;
      var diff := Abs(mfaTime - whisTime);
      if diff < Cutoff {
        fileDiffs := fileDiffs + [diff];
        matchCount := matchCount + 1;
      }
      k := k + 1;
    }
  }

  /** The opcode loop of `benchmark_robust` for one file: `file_diffs` is what
      the `equal` runs contribute, and `match_count`, which is bumped only for
      kept pairs, is the number of kept differences. The opcodes need only be
      in bounds for the loop to run; `DiffsCount` and `DiffsBounded` say what
      a partition adds. */
  method CollectFileDiffs(mfa: seq<Timed>, whis: seq<Timed>, ops: seq<Opcode>) returns (fileDiffs: seq<real>, matchCount: nat)
    requires AllInBounds(ops, |mfa|, |whis|)
    ensures fileDiffs == Diffs(ops, mfa, whis)
    ensures matchCount == |fileDiffs|
  {
    fileDiffs := [];
    matchCount := 0;
    var n := 0;
    while n < |ops|
      invariant 0 <= n <= |ops|
      invariant fileDiffs == DiffsUpTo(ops, mfa, whis, n)
      invariant matchCount == |fileDiffs|
    {
      var op := ops[n];
      assert InBounds(op, |mfa|, |whis|);
      assert DiffsUpTo(ops, mfa, whis, n + 1) == DiffsUpTo(ops, mfa, whis, n) + OpDiffs(op, mfa, whis);
      if op.tag == Equal {
        fileDiffs, matchCount := CollectRun(mfa, whis, op.i1, op.j1, op.i2 - op.i1, fileDiffs, matchCount);
      } else {
        assert fileDiffs + [] == fileDiffs;
      }
      n := n + 1;
    }
  }

  // ---------------------------------------------------------------------------
  // one file and the whole batch

  /** One audio file: the words tier of its TextGrid (None when the TextGrid is
      missing), the raw Whisper words, flattened over segments, and the
      opcodes that `SequenceMatcher` returns for the two token lists. */
  datatype FileInput = FileInput(words: Option<seq<Interval>>, hyp: seq<Timed>, ops: seq<Opcode>)

  /** `mfa_words`: the non-silence intervals as `(normalize(mark), minTime)`. */
  function MfaWords(tier: seq<Interval>): seq<Timed> {
    Words(tier, Normalize)
  }

  /** `whisper_words`: every recognised word as `(normalize(word), start)`. */
  function WhisperWords(hyp: seq<Timed>): seq<Timed> {
    seq(|hyp|, k requires 0 <= k < |hyp| => Timed(Normalize(hyp[k].word), hyp[k].start))
  }

  /** The opcodes given for a file partition its two token lists. */
  predicate InputOk(f: FileInput) {
    f.words.Some? ==> WellFormed(f.ops, Texts(MfaWords(f.words.value)), Texts(WhisperWords(f.hyp)))
  }

  /** The opcodes given for a file stay inside its two token lists, which is
      all the loops of `benchmark_robust` rely on. */
  predicate OpsFit(f: FileInput) {
    f.words.Some? ==> AllInBounds(f.ops, |MfaWords(f.words.value)|, |WhisperWords(f.hyp)|)
  }

  /** Opcodes from `SequenceMatcher` fit, and the row of such a file never
      claims more matches than the file has reference words. */
  lemma InputOkRow(f: FileInput)
    requires InputOk(f)
    ensures OpsFit(f)
    ensures FileRowOf(f).Matched? ==> FileRowOf(f).matches <= FileRowOf(f).words
  {
    if f.words.Some? {
      var mfa := MfaWords(f.words.value);
      var whis := WhisperWords(f.hyp);
      assert |Texts(mfa)| == |mfa| && |Texts(whis)| == |whis|;
      DiffsCount(f.ops, mfa, whis);
    }
  }

  /** The differences a file contributes; none when its TextGrid is missing.
      Opcodes that do not fit the two token lists, which `SequenceMatcher`
      never returns, contribute none either. */
  function FileDiffs(f: FileInput): seq<real> {
    if f.words.None? then []
    else
      var mfa := MfaWords(f.words.value);
      var whis := WhisperWords(f.hyp);
      if AllInBounds(f.ops, |mfa|, |whis|) then Diffs(f.ops, mfa, whis) else []
  }

  /** The row a file prints. */
  function FileRowOf(f: FileInput): FileRow {
    if f.words.None? then Skipped else Row(FileDiffs(f), |MfaWords(f.words.value)|)
  }

  /** `all_diffs`: the per-file differences joined in file order. */
  function AllDiffs(files: seq<FileInput>): seq<real> {
    if files == [] then [] else AllDiffs(files[..|files| - 1]) + FileDiffs(files[|files| - 1])
  }

  /** Every pooled difference is below the cutoff. */
  lemma {:induction false} AllDiffsBounded(files: seq<FileInput>)
    ensures BelowCutoff(AllDiffs(files))
    decreases |files|
  {
    if files != [] {
      var init := files[..|files| - 1];
      var f := files[|files| - 1];
      AllDiffsBounded(init);
      if f.words.Some? {
        var mfa := MfaWords(f.words.value);
        var whis := WhisperWords(f.hyp);
        if AllInBounds(f.ops, |mfa|, |whis|) {
          DiffsBounded(f.ops, mfa, whis);
        }
      }
      BelowCutoffAppend(AllDiffs(init), FileDiffs(f));
    }
  }

  /** The body of the file loop of `benchmark_robust` for one audio file: its
      row and the differences it adds to the pool. */
  method BenchmarkFile(file: FileInput) returns (row: FileRow, fileDiffs: seq<real>)
    requires OpsFit(file)
    ensures row == FileRowOf(file)
    ensures fileDiffs == FileDiffs(file)
  {
    if file.words.None? {
      return Skipped, [];
    }
    var mfaWords := CollectWords(file.words.value, Normalize);
    var whisperWords := WhisperWords(file.hyp);
    var matchCount;
    fileDiffs, matchCount := CollectFileDiffs(mfaWords, whisperWords, file.ops);
    if fileDiffs != [] {
      row := Matched(matchCount, |mfaWords|, Mean(fileDiffs));
    } else {
      row := NoMatches;
    }
  }

  /** The file loop of `benchmark_robust`: the rows and the pooled differences. */
  method BenchmarkFiles(files: seq<FileInput>) returns (rows: seq<FileRow>, allDiffs: seq<real>)
    requires forall k :: 0 <= k < |files| ==> OpsFit(files[k])
    ensures rows == FileRows(files, FileRowOf)
    ensures allDiffs == AllDiffs(files)
  {
    rows := [];
    allDiffs := [];
    var f := 0;
    while f < |files|
      invariant 0 <= f <= |files|
      invariant rows == FileRows(files[..f], FileRowOf)
      invariant allDiffs == AllDiffs(files[..f])
    {
      assert files[..f + 1][..f] == files[..f];
      var row, fileDiffs := BenchmarkFile(files[f]);
      rows := rows + [row];
      if fileDiffs != [] {
        allDiffs := allDiffs + fileDiffs;
      }
      f := f + 1;
    }
    assert files[..f] == files;
  }

  /** `benchmark_robust`: one row per audio file, the pooled differences, and
      the mean absolute error when any difference was kept. */
  method BenchmarkRobust(files: seq<FileInput>) returns (rows: seq<FileRow>, allDiffs: seq<real>, mae: Option<real>)
    requires forall k :: 0 <= k < |files| ==> OpsFit(files[k])
    ensures |rows| == |files|
    ensures forall k :: 0 <= k < |files| ==> rows[k] == FileRowOf(files[k])
    ensures allDiffs == AllDiffs(files)
    ensures BelowCutoff(allDiffs)
    ensures mae.None? <==> allDiffs == []
    ensures mae.Some? ==> mae.value == Mean(allDiffs) && 0.0 <= mae.value < Cutoff
  {
    rows, allDiffs := BenchmarkFiles(files);
    FileRowsAt(files, FileRowOf);
    AllDiffsBounded(files);
    if allDiffs != [] {
      MeanBelow(allDiffs, Cutoff);
      mae := Some(Mean(allDiffs));
    } else {
      mae := None;
    }
  }
}
