/** The side-by-side listing of `scripts/Experiments/debug_whisper.py`: for the
    first audio file, the normalised reference words of its TextGrid next to
    the normalised Whisper transcript split on whitespace. */
module DebugWhisper {
  import opened Text
  import opened Tiers
  import Benchmark

  /** The first audio file: the words tier of its TextGrid (None when the
      TextGrid cannot be read) and Whisper's full transcript text. */
  datatype Recording = Recording(words: Option<seq<Interval>>, text: Str)

  /** What `debug_first_file` shows. `MissingTextGrid` stands for the
      exception it raises when the first file has no TextGrid. */
  datatype Outcome =
    | NoWavFiles
    | MissingTextGrid
    | Debug(mfaWords: seq<Str>, whisperTokens: seq<Str>)

  /** `mfa_words`: one entry per non-silence interval, in tier order, so
      the list is no longer than the tier. Entry `k` is the normalised mark
      of the `k`-th kept interval, which is an interval of the tier and not
      silence. */
  function MfaWords(tier: seq<Interval>): (ws: seq<Str>)
    ensures |ws| == |KeepSpeech(tier)| <= |tier|
    ensures forall k :: 0 <= k < |ws| ==>
              ws[k] == Benchmark.NormalizeWord(KeepSpeech(tier)[k].mark)
              && !IsSilence(KeepSpeech(tier)[k].mark) && KeepSpeech(tier)[k] in tier
  {
    KeepSpeechMembers(tier);
    var kept := KeepSpeech(tier);
    assert forall k :: 0 <= k < |kept| ==> kept[k] in kept;
    seq(|kept|, k requires 0 <= k < |kept| => Benchmark.NormalizeWord(kept[k].mark))
  }

  /** `normalize(result["text"]).split()`: the whole transcript is normalised
      as one word, so only its outer punctuation goes, then it is split. */
  function WhisperTokens(text: Str): seq<Str> {
    Split(Benchmark.NormalizeWord(text))
  }

  /** `debug_first_file` over the audio files in directory order. Nothing
      is listed without an audio file. Where the first file has no TextGrid
      the script raises, and the model returns `MissingTextGrid`. Otherwise it lists one reference word per
      non-silence interval, each already in normal form (lowercase, no outer
      punctuation), and transcript tokens that are non-empty, free of
      whitespace and lowercase. */
  function DebugFirstFile(wavs: seq<Recording>): (r: Outcome)
    ensures r.NoWavFiles? <==> wavs == []
    ensures r.MissingTextGrid? <==> wavs != [] && wavs[0].words.None?
    ensures r.Debug? ==> wavs[0].words.Some?
                         && r.mfaWords == MfaWords(wavs[0].words.value)
                         && r.whisperTokens == WhisperTokens(wavs[0].text)
    ensures r.Debug? ==> |r.mfaWords| == |KeepSpeech(wavs[0].words.value)| <= |wavs[0].words.value|
    ensures r.Debug? ==> forall k :: 0 <= k < |r.mfaWords| ==>
                           Benchmark.NormalizeWord(r.mfaWords[k]) == r.mfaWords[k]
                           && forall i :: 0 <= i < |r.mfaWords[k]| ==> !IsUpper(r.mfaWords[k][i])
    ensures r.Debug? ==> forall n :: 0 <= n < |r.whisperTokens| ==>
                           IsField(r.whisperTokens[n])
                           && forall i :: 0 <= i < |r.whisperTokens[n]| ==> !IsUpper(r.whisperTokens[n][i])
  {
    if wavs == [] then NoWavFiles
    else if wavs[0].words.None? then MissingTextGrid
    else
      MfaWordsNormalized(wavs[0].words.value);
      WhisperTokensAreFields(wavs[0].text);
      Debug(MfaWords(wavs[0].words.value), WhisperTokens(wavs[0].text))
  }

  /** Every listed reference word is already in normal form: normalising it
      again changes nothing, and it has no capitals. */
  lemma MfaWordsNormalized(tier: seq<Interval>)
    ensures forall k :: 0 <= k < |MfaWords(tier)| ==>
              Benchmark.NormalizeWord(MfaWords(tier)[k]) == MfaWords(tier)[k]
              && forall i :: 0 <= i < |MfaWords(tier)[k]| ==> !IsUpper(MfaWords(tier)[k][i])
  {
    var ws := MfaWords(tier);
    forall k | 0 <= k < |ws|
      ensures Benchmark.NormalizeWord(ws[k]) == ws[k]
              && forall i :: 0 <= i < |ws[k]| ==> !IsUpper(ws[k][i])
    {
      var mark := KeepSpeech(tier)[k].mark;
      Benchmark.NormalizeWordIdempotent(mark);
      Benchmark.NormalizeWordIsTrim(mark);
    }
  }

  /** Silence anywhere in the tier leaves the reference words unchanged. */
  lemma SilenceNotListed(a: seq<Interval>, s: Interval, b: seq<Interval>)
    requires IsSilence(s.mark)
    ensures MfaWords(a + [s] + b) == MfaWords(a + b)
  {
    SilenceDropped(a, s, b);
  }

  /** Every token is a non-empty run without whitespace or capitals, and there
      is no token exactly when the normalised transcript is blank. */
  lemma WhisperTokensAreFields(text: Str)
    ensures forall n :: 0 <= n < |WhisperTokens(text)| ==>
              IsField(WhisperTokens(text)[n])
              && forall k :: 0 <= k < |WhisperTokens(text)[n]| ==> !IsUpper(WhisperTokens(text)[n][k])
    ensures WhisperTokens(text) == [] <==>
              forall k :: 0 <= k < |Benchmark.NormalizeWord(text)| ==> IsSpace(Benchmark.NormalizeWord(text)[k])
  {
    var t := Benchmark.NormalizeWord(text);
    Benchmark.NormalizeWordIsTrim(text);
    SplitFromFields(t, []);
    SplitEmptyIff(t);
    TokensAreLower(t, []);
  }

  /** The fields of text without capitals have no capitals. */
  lemma {:induction false} TokensAreLower(s: Str, cur: Str)
    requires forall k :: 0 <= k < |s| ==> !IsUpper(s[k])
    requires forall k :: 0 <= k < |cur| ==> !IsUpper(cur[k])
    ensures forall n, k :: 0 <= n < |SplitFrom(s, cur)| && 0 <= k < |SplitFrom(s, cur)[n]| ==> !IsUpper(SplitFrom(s, cur)[n][k])
    decreases |s|
  {
    if s == [] {
    } else if IsSpace(s[0]) {
      TokensAreLower(s[1..], []);
    } else {
      TokensAreLower(s[1..], cur + [s[0]]);
    }
  }

  /** A transcript made of clean words (lowercase, no whitespace, no outer
      punctuation) joined by single spaces is listed as exactly those words. */
  lemma CleanTranscriptRoundTrip(ws: seq<Str>)
    requires forall n :: 0 <= n < |ws| ==>
               IsField(ws[n]) && Lower(ws[n]) == ws[n]
               && ws[n][0] !in Benchmark.Punctuation && ws[n][|ws[n]| - 1] !in Benchmark.Punctuation
    ensures WhisperTokens(Join(ws)) == ws
  {
    var t := Join(ws);
    if ws != [] {
      JoinEnds(ws);
    }
    StripLeftNoop(t, Benchmark.Punctuation);
    StripRightNoop(t, Benchmark.Punctuation);
    JoinLower(ws);
    SplitJoin(ws);
  }

  /** Normalising a whole transcript keeps its leading space and inner comma. */
  lemma TranscriptNormalized()
    ensures Benchmark.NormalizeWord(" Hello, world.") == " hello, world"
  {
    var u: Str := " Hello, world";
    Benchmark.NormalizeWordWrapped([], u, ['.']);
    assert [] + u + ['.'] == " Hello, world.";
    assert Lower(u) == " hello, world";
  }

  /** The normalised transcript splits at its spaces only. */
  lemma TranscriptSplit()
    ensures Split(" hello, world") == ["hello,", "world"]
  {
    var w1: Str := "hello,";
    var w2: Str := "world";
    var fields := [w1, w2];
    assert fields[1..] == [w2];
    assert Join(fields) == w1 + [' '] + w2;
    assert " hello, world" == [' '] + Join(fields);
    SplitLeadingSpace(' ', Join(fields));
    PrintableField(w1);
    PrintableField(w2);
    SplitJoin(fields);
  }

  /** A mark with a trailing comma loses it. */
  lemma MarkNormalized()
    ensures Benchmark.NormalizeWord("Hello,") == "hello"
  {
    var w: Str := "Hello";
    Benchmark.NormalizeWordWrapped([], w, [',']);
    assert [] + w + [','] == "Hello,";
    assert Lower(w) == "hello";
  }

  /** Inner punctuation survives in the transcript: the tokens of
      `" Hello, world."` are `"hello,"` and `"world"`, while the same word as
      a TextGrid mark normalises to `"hello"`, which is not among them. */
  lemma InnerPunctuationKept()
    ensures WhisperTokens(" Hello, world.") == ["hello,", "world"]
    ensures Benchmark.NormalizeWord("Hello,") == "hello"
    ensures Benchmark.NormalizeWord("Hello,") !in WhisperTokens(" Hello, world.")
  {
    TranscriptNormalized();
    TranscriptSplit();
    MarkNormalized();
    var h: Str := "hello";
    var t: seq<Str> := ["hello,", "world"];
    assert |h| != |t[0]| && h != t[1];
  }
}
