/** The records the scripts read from a TextGrid tier and from a Whisper
    transcript, and the silence filter they all apply to a tier. */
module Tiers {
  import opened Text

  /** One interval of a TextGrid tier: its label and its time span in seconds. */
  datatype Interval = Interval(mark: Str, minTime: real, maxTime: real)

  /** A word with its start time in seconds. */
  datatype Timed = Timed(word: Str, start: real)

  /** A value that may be absent: a TextGrid that is not there, or an error
      that cannot be computed because nothing was matched. */
  datatype Option<T> = None | Some(value: T)

  /** The labels that mark silence or an empty interval. */
  const SilenceMarks: set<Str> := {"", "sil", "sp"}

  predicate IsSilence(mark: Str) {
    mark in SilenceMarks
  }

  /** The intervals of a tier that are not silence, in tier order. */
  function KeepSpeech(tier: seq<Interval>): seq<Interval> {
    if tier == [] then []
    else
      var last := tier[|tier| - 1];
      KeepSpeech(tier[..|tier| - 1]) + (if IsSilence(last.mark) then [] else [last])
  }

  /** The filter distributes over concatenation, so it keeps tier order. */
  lemma {:induction false} KeepSpeechAppend(a: seq<Interval>, b: seq<Interval>)
    ensures KeepSpeech(a + b) == KeepSpeech(a) + KeepSpeech(b)
    decreases |b|
  {
    if b == [] {
      assert a + b == a;
    } else {
      var b' := b[..|b| - 1];
      assert (a + b)[..|a + b| - 1] == a + b';
      assert (a + b)[|a + b| - 1] == b[|b| - 1];
      KeepSpeechAppend(a, b');
    }
  }

  /** Exactly the non-silence intervals are kept, and the result is no longer
      than the tier. */
  lemma {:induction false} KeepSpeechMembers(tier: seq<Interval>)
    ensures |KeepSpeech(tier)| <= |tier|
    ensures forall iv :: iv in KeepSpeech(tier) <==> iv in tier && !IsSilence(iv.mark)
    decreases |tier|
  {
    if tier != [] {
      var init := tier[..|tier| - 1];
      KeepSpeechMembers(init);
      assert tier == init + [tier[|tier| - 1]];
    }
  }

  /** A tier without silence is kept whole; in particular the filter is idempotent. */
  lemma {:induction false} KeepSpeechNoSilence(tier: seq<Interval>)
    requires forall k :: 0 <= k < |tier| ==> !IsSilence(tier[k].mark)
    ensures KeepSpeech(tier) == tier
    decreases |tier|
  {
    if tier != [] {
      KeepSpeechNoSilence(tier[..|tier| - 1]);
    }
  }

  lemma KeepSpeechIdempotent(tier: seq<Interval>)
    ensures KeepSpeech(KeepSpeech(tier)) == KeepSpeech(tier)
  {
    KeepSpeechMembers(tier);
    var kept := KeepSpeech(tier);
    assert forall k :: 0 <= k < |kept| ==> kept[k] in kept;
    KeepSpeechNoSilence(kept);
  }

  /** A silence interval anywhere in the tier changes nothing that is kept. */
  lemma SilenceDropped(a: seq<Interval>, s: Interval, b: seq<Interval>)
    requires IsSilence(s.mark)
    ensures KeepSpeech(a + [s] + b) == KeepSpeech(a + b)
  {
    KeepSpeechAppend(a + [s], b);
    KeepSpeechAppend(a, [s]);
    KeepSpeechAppend(a, b);
    assert [s][..0] == [];
  }

  /** The `(normalized mark, start)` records built from the kept intervals. */
  function Words(tier: seq<Interval>, norm: Str -> Str): (ws: seq<Timed>) {
    var kept := KeepSpeech(tier);
    seq(|kept|, k requires 0 <= k < |kept| => Timed(norm(kept[k].mark), kept[k].minTime))
  }

  /** Building the words one interval at a time, as the scripts' loops do. */
  lemma WordsSnoc(tier: seq<Interval>, iv: Interval, norm: Str -> Str)
    ensures Words(tier + [iv], norm)
         == Words(tier, norm) + (if IsSilence(iv.mark) then [] else [Timed(norm(iv.mark), iv.minTime)])
  {
    assert (tier + [iv])[..|tier|] == tier;
  }

  /** The `mfa_words` loop over a words tier: skip silence, keep each other
      interval as its normalised mark and start time. */
  method CollectWords(tier: seq<Interval>, norm: Str -> Str) returns (ws: seq<Timed>)
    ensures ws == Words(tier, norm)
  {
    ws := [];
    var k := 0;
    while k < |tier|
      invariant 0 <= k <= |tier|
      invariant ws == Words(tier[..k], norm)
    {
      var iv := tier[k];
      WordsSnoc(tier[..k], iv, norm);
      assert tier[..k + 1] == tier[..k] + [iv];
      if iv.mark != [] && !IsSilence(iv.mark) {
        ws := ws + [Timed(norm(iv.mark), iv.minTime)];
      }
      k := k + 1;
    }
    assert tier[..k] == tier;
  }

  /** The text of each word, dropping the times. */
  function Texts(ws: seq<Timed>): (ts: seq<Str>)
    ensures |ts| == |ws|
  {
    seq(|ws|, k requires 0 <= k < |ws| => ws[k].word)
  }
}
