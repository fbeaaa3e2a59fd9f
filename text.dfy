/** Characters and strings as the scripts see them, restricted to ASCII.
    The helpers mirror the Python built-ins the scripts call on strings:
    `str.lower`, `str.strip(chars)` and the argument-less `str.split`. */
module Text {

  /** A 7-bit ASCII character. */
  type Char = c: char | c as int < 128 witness 'a'

  type Str = seq<Char>

  /** The ASCII characters for which Python's `str.isspace` holds; this is also
      the ASCII part of the regular-expression class `\s` and the separator set
      of `str.split()` and `str.strip()`. */
  const Whitespace: set<Char> :=
    {9 as char, 10 as char, 11 as char, 12 as char, 13 as char,
     28 as char, 29 as char, 30 as char, 31 as char, ' '}

  predicate IsSpace(c: Char) {
    c in Whitespace
  }

  predicate IsUpper(c: Char) {
    'A' <= c <= 'Z'
  }

  /** The ASCII part of the regular-expression class `\w`. */
  predicate IsWordChar(c: Char) {
    'A' <= c <= 'Z' || 'a' <= c <= 'z' || '0' <= c <= '9' || c == '_'
  }

  function LowerChar(c: Char): (r: Char)
    ensures !IsUpper(r)
    ensures IsUpper(c) ==> r as int == c as int + 32
    ensures !IsUpper(c) ==> r == c
  {
    if IsUpper(c) then (c as int + 32) as char else c
  }

  /** `s.lower()` on ASCII text. */
  function Lower(s: Str): (r: Str) {
    seq(|s|, i requires 0 <= i < |s| => LowerChar(s[i]))
  }

  lemma LowerFacts(s: Str)
    ensures |Lower(s)| == |s|
    ensures forall i :: 0 <= i < |s| ==> Lower(s)[i] == LowerChar(s[i])
    ensures forall i :: 0 <= i < |s| ==> !IsUpper(Lower(s)[i])
  {
  }

  /** Lowercasing twice is lowercasing once. */
  lemma LowerIdempotent(s: Str)
    ensures Lower(Lower(s)) == Lower(s)
  {
  }

  /** `s.lstrip(chars)`: drop the leading characters that are in `cs`. */
  function StripLeft(s: Str, cs: set<Char>): Str {
    if |s| > 0 && s[0] in cs then StripLeft(s[1..], cs) else s
  }

  /** `s.rstrip(chars)`: drop the trailing characters that are in `cs`. */
  function StripRight(s: Str, cs: set<Char>): Str {
    if |s| > 0 && s[|s| - 1] in cs then StripRight(s[..|s| - 1], cs) else s
  }

  /** `s.strip(chars)`. */
  function Strip(s: Str, cs: set<Char>): Str {
    StripRight(StripLeft(s, cs), cs)
  }

  /** `lstrip` drops a prefix made of characters of `cs` and stops at the
      first character outside `cs`. */
  lemma {:induction false} StripLeftIsSuffix(s: Str, cs: set<Char>)
    ensures |StripLeft(s, cs)| <= |s|
    ensures StripLeft(s, cs) == s[|s| - |StripLeft(s, cs)|..]
    ensures forall k :: 0 <= k < |s| - |StripLeft(s, cs)| ==> s[k] in cs
    ensures |StripLeft(s, cs)| > 0 ==> StripLeft(s, cs)[0] !in cs
    decreases |s|
  {
    if |s| > 0 && s[0] in cs {
      var t := s[1..];
      StripLeftIsSuffix(t, cs);
      assert t[|t| - |StripLeft(t, cs)|..] == s[|s| - |StripLeft(t, cs)|..];
      forall k | 0 <= k < |s| - |StripLeft(t, cs)| ensures s[k] in cs {
        if k > 0 { assert s[k] == t[k - 1]; }
      }
    }
  }

  /** `rstrip` drops a suffix made of characters of `cs` and stops at the
      last character outside `cs`. */
  lemma {:induction false} StripRightIsPrefix(s: Str, cs: set<Char>)
    ensures |StripRight(s, cs)| <= |s|
    ensures StripRight(s, cs) == s[..|StripRight(s, cs)|]
    ensures forall k :: |StripRight(s, cs)| <= k < |s| ==> s[k] in cs
    ensures |StripRight(s, cs)| > 0 ==> StripRight(s, cs)[|StripRight(s, cs)| - 1] !in cs
    decreases |s|
  {
    if |s| > 0 && s[|s| - 1] in cs {
      var t := s[..|s| - 1];
      StripRightIsPrefix(t, cs);
      assert t[..|StripRight(t, cs)|] == s[..|StripRight(t, cs)|];
      forall k | |StripRight(t, cs)| <= k < |s| ensures s[k] in cs {
        if k < |s| - 1 { assert s[k] == t[k]; }
      }
    }
  }

  /** `strip` removes characters of `cs` at both ends and nothing else: the
      result is a contiguous slice of the input, everything cut off is in `cs`,
      and the result neither starts nor ends with a character of `cs`. */
  lemma StripIsTrim(s: Str, cs: set<Char>)
    ensures exists i, j :: 0 <= i <= j <= |s| && Strip(s, cs) == s[i..j]
                           && (forall k :: 0 <= k < i ==> s[k] in cs)
                           && (forall k :: j <= k < |s| ==> s[k] in cs)
    ensures |Strip(s, cs)| > 0 ==> Strip(s, cs)[0] !in cs && Strip(s, cs)[|Strip(s, cs)| - 1] !in cs
  {
    var t := StripLeft(s, cs);
    StripLeftIsSuffix(s, cs);
    StripRightIsPrefix(t, cs);
    var i := |s| - |t|;
    var j := i + |StripRight(t, cs)|;
    assert Strip(s, cs) == s[i..j];
    forall k | j <= k < |s| ensures s[k] in cs {
      assert s[k] == t[k - i];
    }
    if |Strip(s, cs)| > 0 {
      assert Strip(s, cs)[0] == t[0];
    }
    assert 0 <= i <= j <= |s| && Strip(s, cs) == s[i..j]
           && (forall k :: 0 <= k < i ==> s[k] in cs)
           && (forall k :: j <= k < |s| ==> s[k] in cs);
  }

  lemma StripLeftNoop(s: Str, cs: set<Char>)
    requires |s| > 0 ==> s[0] !in cs
    ensures StripLeft(s, cs) == s
  {
  }

  lemma StripRightNoop(s: Str, cs: set<Char>)
    requires |s| > 0 ==> s[|s| - 1] !in cs
    ensures StripRight(s, cs) == s
  {
  }

  /** `lstrip` removes a whole prefix of characters of `cs` in front of text
      that does not start with one. */
  lemma {:induction false} StripLeftPrefix(pre: Str, s: Str, cs: set<Char>)
    requires forall k :: 0 <= k < |pre| ==> pre[k] in cs
    requires |s| > 0 ==> s[0] !in cs
    ensures StripLeft(pre + s, cs) == s
    decreases |pre|
  {
    if pre == [] {
      assert pre + s == s;
    } else {
      assert (pre + s)[1..] == pre[1..] + s;
      StripLeftPrefix(pre[1..], s, cs);
    }
  }

  /** `rstrip` removes a whole suffix of characters of `cs` behind text that
      does not end with one. */
  lemma {:induction false} StripRightSuffix(s: Str, post: Str, cs: set<Char>)
    requires forall k :: 0 <= k < |post| ==> post[k] in cs
    requires |s| > 0 ==> s[|s| - 1] !in cs
    ensures StripRight(s + post, cs) == s
    decreases |post|
  {
    if post == [] {
      assert s + post == s;
    } else {
      var init := post[..|post| - 1];
      assert (s + post)[..|s + post| - 1] == s + init;
      StripRightSuffix(s, init, cs);
    }
  }

  /** Stripping twice is stripping once. */
  lemma StripIdempotent(s: Str, cs: set<Char>)
    ensures Strip(Strip(s, cs), cs) == Strip(s, cs)
  {
    var t := Strip(s, cs);
    StripIsTrim(s, cs);
    StripLeftNoop(t, cs);
    StripRightNoop(t, cs);
  }

  /** `s.strip(chars)` is empty exactly when every character of `s` is in `cs`. */
  lemma StripEmptyIff(s: Str, cs: set<Char>)
    ensures Strip(s, cs) == [] <==> forall k :: 0 <= k < |s| ==> s[k] in cs
  {
    StripIsTrim(s, cs);
    var i, j :| 0 <= i <= j <= |s| && Strip(s, cs) == s[i..j]
                && (forall k :: 0 <= k < i ==> s[k] in cs)
                && (forall k :: j <= k < |s| ==> s[k] in cs);
  }

  // ---------------------------------------------------------------------------
  // str.split() with no argument

  /** Splitting with `cur` holding the characters of the field read so far. */
  function SplitFrom(s: Str, cur: Str): seq<Str>
    decreases |s|
  {
    if s == [] then
      (if cur == [] then [] else [cur])
    else if IsSpace(s[0]) then
      (if cur == [] then SplitFrom(s[1..], []) else [cur] + SplitFrom(s[1..], []))
    else
      SplitFrom(s[1..], cur + [s[0]])
  }

  /** `s.split()`: the maximal runs of non-whitespace characters, in order. */
  function Split(s: Str): seq<Str> {
    SplitFrom(s, [])
  }

  /** A field: non-empty and free of whitespace. */
  predicate IsField(t: Str) {
    |t| > 0 && forall k :: 0 <= k < |t| ==> !IsSpace(t[k])
  }

  /** Every whitespace character is a control character or the space, so a
      non-empty run of printable, non-space characters is a field. */
  lemma PrintableField(t: Str)
    requires |t| > 0 && forall k :: 0 <= k < |t| ==> t[k] as int > 32
    ensures IsField(t)
  {
    forall k | 0 <= k < |t| ensures !IsSpace(t[k]) {
      assert t[k] as int > 32;
    }
  }

  lemma {:induction false} SplitFromFields(s: Str, cur: Str)
    requires forall k :: 0 <= k < |cur| ==> !IsSpace(cur[k])
    ensures forall n :: 0 <= n < |SplitFrom(s, cur)| ==> IsField(SplitFrom(s, cur)[n])
    decreases |s|
  {
    if s == [] {
    } else if IsSpace(s[0]) {
      SplitFromFields(s[1..], []);
    } else {
      SplitFromFields(s[1..], cur + [s[0]]);
    }
  }

  /** Every field `split` returns is non-empty and holds no whitespace. */
  lemma SplitFields(s: Str)
    ensures forall n :: 0 <= n < |Split(s)| ==> IsField(Split(s)[n])
  {
    SplitFromFields(s, []);
  }

  lemma {:induction false} SplitFromEmptyIff(s: Str, cur: Str)
    ensures SplitFrom(s, cur) == [] <==> cur == [] && forall k :: 0 <= k < |s| ==> IsSpace(s[k])
    decreases |s|
  {
    if s == [] {
    } else if IsSpace(s[0]) {
      SplitFromEmptyIff(s[1..], []);
      if cur == [] {
        assert (forall k :: 0 <= k < |s| ==> IsSpace(s[k]))
               <==> (forall k :: 0 <= k < |s[1..]| ==> IsSpace(s[1..][k])) by {
          if forall k :: 0 <= k < |s[1..]| ==> IsSpace(s[1..][k]) {
            forall k | 0 <= k < |s| ensures IsSpace(s[k]) {
              if k > 0 { assert s[k] == s[1..][k - 1]; }
            }
          }
        }
      }
    } else {
      SplitFromEmptyIff(s[1..], cur + [s[0]]);
    }
  }

  /** `split` returns no field exactly when the text is whitespace only. */
  lemma SplitEmptyIff(s: Str)
    ensures Split(s) == [] <==> forall k :: 0 <= k < |s| ==> IsSpace(s[k])
  {
    SplitFromEmptyIff(s, []);
  }

  /** The fields joined with single spaces. */
  function Join(ts: seq<Str>): Str {
    if |ts| == 0 then [] else if |ts| == 1 then ts[0] else ts[0] + [' '] + Join(ts[1..])
  }

  lemma {:induction false} SplitFromField(w: Str, rest: Str, cur: Str)
    requires forall k :: 0 <= k < |w| ==> !IsSpace(w[k])
    ensures SplitFrom(w + rest, cur) == SplitFrom(rest, cur + w)
    decreases |w|
  {
    if w == [] {
      assert w + rest == rest;
      assert cur + w == cur;
    } else {
      assert (w + rest)[0] == w[0];
      assert (w + rest)[1..] == w[1..] + rest;
      SplitFromField(w[1..], rest, cur + [w[0]]);
      assert cur + [w[0]] + w[1..] == cur + w;
    }
  }

  lemma {:induction false} SplitFromJoin(ts: seq<Str>)
    requires forall n :: 0 <= n < |ts| ==> IsField(ts[n])
    ensures SplitFrom(Join(ts), []) == ts
    decreases |ts|
  {
    if |ts| == 0 {
    } else if |ts| == 1 {
      SplitFromField(ts[0], [], []);
      assert ts[0] + [] == ts[0];
      assert [] + ts[0] == ts[0];
    } else {
      var rest := [' '] + Join(ts[1..]);
      assert Join(ts) == ts[0] + rest;
      SplitFromField(ts[0], rest, []);
      assert [] + ts[0] == ts[0];
      assert rest[0] == ' ' && rest[1..] == Join(ts[1..]);
      assert IsSpace(' ');
      SplitFromJoin(ts[1..]);
      assert ts == [ts[0]] + ts[1..];
    }
  }

  /** Splitting fields joined with spaces gives the fields back. */
  lemma SplitJoin(ts: seq<Str>)
    requires forall n :: 0 <= n < |ts| ==> IsField(ts[n])
    ensures Split(Join(ts)) == ts
  {
    SplitFromJoin(ts);
  }

  /** Leading whitespace does not change the fields. */
  lemma SplitLeadingSpace(c: Char, s: Str)
    requires IsSpace(c)
    ensures Split([c] + s) == Split(s)
  {
    assert ([c] + s)[1..] == s;
  }

  /** Lowercasing works character by character, so it distributes over concatenation. */
  lemma LowerAppend(a: Str, b: Str)
    ensures Lower(a + b) == Lower(a) + Lower(b)
  {
  }

  /** Joining lowercase fields gives lowercase text. */
  lemma {:induction false} JoinLower(ts: seq<Str>)
    requires forall n :: 0 <= n < |ts| ==> Lower(ts[n]) == ts[n]
    ensures Lower(Join(ts)) == Join(ts)
    decreases |ts|
  {
    if |ts| > 1 {
      JoinLower(ts[1..]);
      LowerAppend(ts[0] + [' '], Join(ts[1..]));
      LowerAppend(ts[0], [' ']);
    }
  }

  /** Joined fields start with the first character of the first field and end
      with the last character of the last field. */
  lemma {:induction false} JoinEnds(ts: seq<Str>)
    requires |ts| > 0
    requires forall n :: 0 <= n < |ts| ==> IsField(ts[n])
    ensures |Join(ts)| > 0
    ensures IsField(ts[0]) && Join(ts)[0] == ts[0][0]
    ensures IsField(ts[|ts| - 1]) && Join(ts)[|Join(ts)| - 1] == ts[|ts| - 1][|ts[|ts| - 1]| - 1]
    decreases |ts|
  {
    if |ts| > 1 {
      assert IsField(ts[1..][0]);
      JoinEnds(ts[1..]);
    }
  }
}
