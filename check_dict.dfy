/** The pronunciation-dictionary linter of
    `mfa_assignment/scripts/Experiments/check_dict.py`: every non-blank line
    must hold a word and at least one phone. */
module CheckDict {
  import opened Text

  /** `not line.strip()`: the line is empty or whitespace only. */
  predicate Blank(line: Str) {
    Strip(line, Whitespace) == []
  }

  /** A line the linter reports: not blank, and fewer than two fields. */
  predicate IsProblem(line: Str) {
    !Blank(line) && |Split(line)| < 2
  }

  /** The blank test and the field count agree: a line is blank exactly when
      it has no field, so a reported line is one with exactly one field. */
  lemma ProblemIsSingleField(line: Str)
    ensures Blank(line) <==> Split(line) == []
    ensures IsProblem(line) <==> |Split(line)| == 1
  {
    StripEmptyIff(line, Whitespace);
    SplitEmptyIff(line);
  }

  /** A line holding a word, whitespace and then a phone passes, whatever follows. */
  lemma EntryPasses(word: Str, sep: Char, phones: Str)
    requires IsField(word) && IsSpace(sep)
    requires |phones| > 0 && !IsSpace(phones[0])
    ensures !IsProblem(word + [sep] + phones)
  {
    var s := word + [sep] + phones;
    var rest := [sep] + phones;
    assert s == word + rest;
    SplitFromField(word, rest, []);
    assert rest[1..] == phones;
    SplitFromEmptyIff(phones, []);
    assert [] + word == word;
    assert Split(s) == [word] + SplitFrom(phones, []);
  }

  /** One report: the 1-based line number and the line as read. */
  datatype Report = Report(lineNo: nat, line: Str)

  /** The reports for `lines`, numbered from 1, in file order. */
  function Reports(lines: seq<Str>): seq<Report> {
    if lines == [] then []
    else
      var line := lines[|lines| - 1];
      Reports(lines[..|lines| - 1]) + (if IsProblem(line) then [Report(|lines|, line)] else [])
  }

  /** Every report carries a line number of the file and that line's text. */
  lemma {:induction false} ReportsInFile(lines: seq<Str>)
    ensures forall r :: r in Reports(lines) ==> 1 <= r.lineNo <= |lines| && lines[r.lineNo - 1] == r.line
    decreases |lines|
  {
    if lines != [] {
      var init := lines[..|lines| - 1];
      var last := lines[|lines| - 1];
      ReportsInFile(init);
      assert Reports(lines) == Reports(init) + (if IsProblem(last) then [Report(|lines|, last)] else []);
      forall r | r in Reports(lines) ensures 1 <= r.lineNo <= |lines| && lines[r.lineNo - 1] == r.line {
        if r in Reports(init) {
          assert init[r.lineNo - 1] == lines[r.lineNo - 1];
        }
      }
    }
  }

  /** A line is reported exactly when it is a problem line. */
  lemma {:induction false} ReportsProblems(lines: seq<Str>)
    ensures forall i :: 0 <= i < |lines| ==> (Report(i + 1, lines[i]) in Reports(lines) <==> IsProblem(lines[i]))
    decreases |lines|
  {
    if lines != [] {
      var init := lines[..|lines| - 1];
      var last := lines[|lines| - 1];
      ReportsProblems(init);
      ReportsInFile(init);
      assert Reports(lines) == Reports(init) + (if IsProblem(last) then [Report(|lines|, last)] else []);
      forall i | 0 <= i < |lines|
        ensures Report(i + 1, lines[i]) in Reports(lines) <==> IsProblem(lines[i])
      {
        if i < |init| {
          assert init[i] == lines[i];
          assert Report(i + 1, lines[i]) != Report(|lines|, last);
        } else {
          assert Report(|lines|, last) !in Reports(init);
        }
      }
    }
  }

  /** Reports come in strictly increasing line order. */
  lemma {:induction false} ReportsOrdered(lines: seq<Str>)
    ensures forall a, b :: 0 <= a < b < |Reports(lines)| ==> Reports(lines)[a].lineNo < Reports(lines)[b].lineNo
    decreases |lines|
  {
    if lines != [] {
      var init := lines[..|lines| - 1];
      var last := lines[|lines| - 1];
      ReportsOrdered(init);
      ReportsInFile(init);
      var before := Reports(init);
      assert Reports(lines) == before + (if IsProblem(last) then [Report(|lines|, last)] else []);
      forall a, b | 0 <= a < b < |Reports(lines)| ensures Reports(lines)[a].lineNo < Reports(lines)[b].lineNo {
        assert Reports(lines)[a] == before[a];
        if b >= |before| {
          assert before[a] in before;
        } else {
          assert Reports(lines)[b] == before[b];
        }
      }
    }
  }

  /** Exactly the problem lines are reported, once each, with their own
      number and text, in increasing line order. */
  lemma ReportsExact(lines: seq<Str>)
    ensures forall r :: r in Reports(lines) ==> 1 <= r.lineNo <= |lines| && lines[r.lineNo - 1] == r.line
    ensures forall i :: 0 <= i < |lines| ==> (Report(i + 1, lines[i]) in Reports(lines) <==> IsProblem(lines[i]))
    ensures forall a, b :: 0 <= a < b < |Reports(lines)| ==> Reports(lines)[a].lineNo < Reports(lines)[b].lineNo
  {
    ReportsInFile(lines);
    ReportsProblems(lines);
    ReportsOrdered(lines);
  }

  /** `check_dict` over the lines of the dictionary file. */
  method CheckDict(lines: seq<Str>) returns (reports: seq<Report>)
    ensures reports == Reports(lines)
  {
    reports := [];
    var i := 0;
    while i < |lines|
      invariant 0 <= i <= |lines|
      invariant reports == Reports(lines[..i])
    {
      var line := lines[i];
      assert lines[..i + 1][..i] == lines[..i];
      if Strip(line, Whitespace) != [] {
        var parts := Split(line);
        if |parts| < 2 {
          reports := reports + [Report(i + 1, line)];
        }
      }
      i := i + 1;
    }
    assert lines[..i] == lines;
  }
}
