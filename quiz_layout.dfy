/** Round trips of the quiz parser: a block laid out the way the patterns of
    parseQuestions accept it (SkillQuestions.kt:511-525), one "X) text" line
    per option, then "Correct Answer: X", is read back as exactly the
    question that was written. */
module QuizLayout {
  import opened Text
  import opened Records
  import opened SkillQuestions

  // ---------------------------------------------------------------------
  // Option lines.
  // ---------------------------------------------------------------------

  /** An option text as written on its own line: not empty, no line feed,
      and not starting with a `\s` character (which the pattern's `\s*`
      would swallow). */
  predicate OneLineOption(o: string)
  {
    |o| >= 1 && '\n' !in o && !IsRegexSpace(o[0])
  }

  /** The option lines "X) text\n", one per letter and text. */
  function OptionLines(letters: seq<char>, texts: seq<string>): string
    requires |letters| == |texts|
  {
    if letters == [] then []
    else [letters[0], ')', ' '] + texts[0] + "\n" + OptionLines(letters[1..], texts[1..])
  }

  /** Every text, trimmed. */
  function Trimmed(texts: seq<string>): (r: seq<string>)
    ensures |r| == |texts|
  {
    if texts == [] then [] else [Trim(texts[0])] + Trimmed(texts[1..])
  }

  /** Letters the option pattern's `[A-D]` accepts (it is case-sensitive). */
  predicate OptionLetters(letters: seq<char>)
  {
    forall k :: 0 <= k < |letters| ==> 'A' <= letters[k] <= 'D'
  }

  predicate OneLineOptions(texts: seq<string>)
  {
    forall k :: 0 <= k < |texts| ==> OneLineOption(texts[k])
  }

  /** "X)" with X in A-D starts at k: where the option pattern can match. */
  predicate OptionMarkAt(s: string, k: nat)
  {
    k + 1 < |s| && 'A' <= s[k] <= 'D' && s[k + 1] == ')'
  }

  // The lemmas about OptionsFrom below name every index they pass to it
  // (n == i + 1 as a requires rather than i + 1 in the ensures), so that
  // the facts they chain together speak of the very same terms.

  /** No match starts at the end of the text. */
  lemma OptionsAtEnd(s: string, i: nat)
    requires i == |s|
    ensures OptionsFrom(s, i) == []
  {
  }

  /** A match at i: its trimmed group, then the matches from its end on. */
  lemma OptionsFromMatch(s: string, i: nat, k: nat, g: string)
    requires i < |s| && OptionAt(s, i) == Some((k, g))
    ensures OptionsFrom(s, i) == [Trim(g)] + OptionsFrom(s, k)
  {
  }

  /** No match at i: the search moves on to n = i + 1. */
  lemma OptionsFromNoMatch(s: string, i: nat, n: nat)
    requires i < |s| && OptionAt(s, i).None? && n == i + 1
    ensures OptionsFrom(s, i) == OptionsFrom(s, n)
  {
  }

  /** No match where no "X)" starts. */
  lemma OptionsFromSkip(s: string, i: nat, n: nat)
    requires i < |s| && !OptionMarkAt(s, i) && n == i + 1
    ensures OptionsFrom(s, i) == OptionsFrom(s, n)
  {
    OptionsFromNoMatch(s, i, n);
  }

  /** Where no "X)" starts, the option search moves on without a match. */
  lemma {:induction false} SkipNoOptionMark(s: string, i: nat, j: nat)
    requires i <= j <= |s|
    requires forall k :: i <= k < j ==> !OptionMarkAt(s, k)
    ensures OptionsFrom(s, i) == OptionsFrom(s, j)
    decreases j - i
  {
    if i < j {
      var n := i + 1;
      assert !OptionMarkAt(s, i);
      SkipNoOptionMark(s, n, j);
      OptionsFromSkip(s, i, n);
      assert OptionsFrom(s, i) == OptionsFrom(s, n);
    }
  }

  /** Scanning a line from j stops at its line feed at k. */
  lemma {:induction false} LineEndStopsAt(s: string, j: nat, k: nat)
    requires j <= k < |s| && s[k] == '\n'
    requires forall m :: j <= m < k ==> s[m] != '\n'
    ensures LineEnd(s, j) == k
    decreases k - j
  {
    if j < k {
      LineEndStopsAt(s, j + 1, k);
    }
  }

  // ---------------------------------------------------------------------
  // The scanners only look forward: text placed in front of y does not
  // change what they find in y.
  // ---------------------------------------------------------------------

  lemma {:induction false} SkipSpaceShift(x: string, y: string, j: nat, n: nat)
    requires j <= |y| && n == |x| + j
    ensures SkipRegexSpace(x + y, n) == |x| + SkipRegexSpace(y, j)
    decreases |y| - j
  {
    if j < |y| {
      assert (x + y)[n] == y[j];
      if IsRegexSpace(y[j]) {
        SkipSpaceShift(x, y, j + 1, n + 1);
      }
    }
  }

  lemma {:induction false} LineEndShift(x: string, y: string, j: nat, n: nat)
    requires j <= |y| && n == |x| + j
    ensures LineEnd(x + y, n) == |x| + LineEnd(y, j)
    decreases |y| - j
  {
    if j < |y| {
      assert (x + y)[n] == y[j];
      if y[j] != '\n' {
        LineEndShift(x, y, j + 1, n + 1);
      }
    }
  }

  lemma {:induction false} LastNonNewlineShift(x: string, y: string, lo: nat, hi: nat, nlo: nat, nhi: nat)
    requires lo <= hi <= |y| && nlo == |x| + lo && nhi == |x| + hi
    ensures LastNonNewline(x + y, nlo, nhi)
            == match LastNonNewline(y, lo, hi) case Some(p) => Some(|x| + p) case None => None
    decreases hi - lo
  {
    if lo < hi {
      assert (x + y)[nhi - 1] == y[hi - 1];
      if y[hi - 1] == '\n' {
        LastNonNewlineShift(x, y, lo, hi - 1, nlo, nhi - 1);
      }
    }
  }

  lemma OptionGroupShift(x: string, y: string, lo: nat, m: nat)
    requires lo <= |y| && m == |x| + lo
    ensures OptionGroup(x + y, m)
            == match OptionGroup(y, lo) case Some((g, e)) => Some((|x| + g, |x| + e)) case None => None
  {
    SkipSpaceShift(x, y, lo, m);
    var j := SkipRegexSpace(y, lo);
    if j < |y| {
      LineEndShift(x, y, j, |x| + j);
    } else {
      LastNonNewlineShift(x, y, lo, |y|, m, |x + y|);
    }
  }

  /** The option match at n = |x| + i in x + y is the one at i in y, moved. */
  lemma OptionAtShift(x: string, y: string, i: nat, n: nat)
    requires i <= |y| && n == |x| + i
    ensures OptionAt(x + y, n)
            == match OptionAt(y, i) case Some((k, g)) => Some((|x| + k, g)) case None => None
  {
    if i + 1 < |y| && 'A' <= y[i] <= 'D' && y[i + 1] == ')' {
      var m := n + 2;
      match OptionGroup(y, i + 2)
      case Some((g, e)) =>
        SomeGroupShift(x, y, i + 2, m, g, e);
        GroupShift(x, y, i, n, g, e);
      case None =>
        NoneGroupShift(x, y, i + 2, m);
        NoGroupShift(x, y, i, n);
    } else {
      NoMarkShift(x, y, i, n);
    }
  }

  lemma SomeGroupShift(x: string, y: string, lo: nat, m: nat, g: nat, e: nat)
    requires lo <= |y| && m == |x| + lo && OptionGroup(y, lo) == Some((g, e))
    ensures OptionGroup(x + y, m) == Some((|x| + g, |x| + e))
  {
    OptionGroupShift(x, y, lo, m);
  }

  lemma NoneGroupShift(x: string, y: string, lo: nat, m: nat)
    requires lo <= |y| && m == |x| + lo && OptionGroup(y, lo).None?
    ensures OptionGroup(x + y, m).None?
  {
    OptionGroupShift(x, y, lo, m);
  }

  lemma GroupShift(x: string, y: string, i: nat, n: nat, g: nat, e: nat)
    requires i + 1 < |y| && 'A' <= y[i] <= 'D' && y[i + 1] == ')' && n == |x| + i
    requires OptionGroup(y, i + 2) == Some((g, e))
    requires OptionGroup(x + y, n + 2) == Some((|x| + g, |x| + e))
    ensures OptionAt(x + y, n)
            == match OptionAt(y, i) case Some((k, g)) => Some((|x| + k, g)) case None => None
  {
    var s, t := x + y, y[g..e];
    assert |s| == |x| + |y| && s[n] == y[i] && s[n + 1] == y[i + 1];
    SliceShift(x, y, g, e);
    OptionAtGroup(y, i, g, e, t);
    OptionAtGroup(s, n, |x| + g, |x| + e, t);
  }

  lemma SliceShift(x: string, y: string, g: nat, e: nat)
    requires g <= e <= |y|
    ensures y[g..e] == (x + y)[|x| + g..|x| + e]
  {
  }

  lemma NoGroupShift(x: string, y: string, i: nat, n: nat)
    requires i + 1 < |y| && 'A' <= y[i] <= 'D' && y[i + 1] == ')' && n == |x| + i
    requires OptionGroup(y, i + 2).None? && OptionGroup(x + y, n + 2).None?
    ensures OptionAt(x + y, n)
            == match OptionAt(y, i) case Some((k, g)) => Some((|x| + k, g)) case None => None
  {
    var s := x + y;
    assert s[n] == y[i] && s[n + 1] == y[i + 1];
    OptionAtNoGroup(y, i);
    OptionAtNoGroup(s, n);
  }

  lemma NoMarkShift(x: string, y: string, i: nat, n: nat)
    requires i <= |y| && !(i + 1 < |y| && 'A' <= y[i] <= 'D' && y[i + 1] == ')') && n == |x| + i
    ensures OptionAt(x + y, n)
            == match OptionAt(y, i) case Some((k, g)) => Some((|x| + k, g)) case None => None
  {
    var s := x + y;
    if i + 1 < |y| {
      assert s[n] == y[i] && s[n + 1] == y[i + 1];
    }
    OptionAtNoMark(y, i);
    OptionAtNoMark(s, n);
  }

  /** At "X)", the match is the group that follows. */
  lemma OptionAtGroup(s: string, i: nat, g: nat, e: nat, t: string)
    requires i + 1 < |s| && 'A' <= s[i] <= 'D' && s[i + 1] == ')'
    requires OptionGroup(s, i + 2) == Some((g, e)) && t == s[g..e]
    ensures OptionAt(s, i) == Some((e, t))
  {
  }

  /** At "X)" with no group after it, no match. */
  lemma OptionAtNoGroup(s: string, i: nat)
    requires i + 1 < |s| && 'A' <= s[i] <= 'D' && s[i + 1] == ')'
    requires OptionGroup(s, i + 2).None?
    ensures OptionAt(s, i).None?
  {
  }

  /** No match where no "X)" starts. */
  lemma OptionAtNoMark(s: string, i: nat)
    requires i <= |s| && !(i + 1 < |s| && 'A' <= s[i] <= 'D' && s[i + 1] == ')')
    ensures OptionAt(s, i).None?
  {
  }

  /** The matches from n = |x| + j on in x + y are those from j on in y. */
  lemma {:induction false} OptionsFromShift(x: string, y: string, j: nat, n: nat)
    requires j <= |y| && n == |x| + j
    ensures OptionsFrom(x + y, n) == OptionsFrom(y, j)
    decreases |y| - j
  {
    if j == |y| {
      OptionsAtEnd(y, j);
      OptionsAtEnd(x + y, n);
    } else {
      OptionAtShift(x, y, j, n);
      match OptionAt(y, j)
      case Some((k, g)) =>
        var nk := |x| + k;
        assert OptionAt(x + y, n) == Some((nk, g));
        OptionsFromShift(x, y, k, nk);
        OptionsFromMatch(y, j, k, g);
        OptionsFromMatch(x + y, n, nk, g);
      case None =>
        var j1, n1 := j + 1, n + 1;
        assert OptionAt(x + y, n).None?;
        OptionsFromShift(x, y, j1, n1);
        OptionsFromNoMatch(y, j, j1);
        OptionsFromNoMatch(x + y, n, n1);
    }
  }

  // ---------------------------------------------------------------------
  // Option lines, read back.
  // ---------------------------------------------------------------------

  /** One option line "X) o\n" at i is one match, whose group is o. */
  lemma OneLineAt(s: string, i: nat, o: string)
    requires OneLineOption(o) && i + 3 + |o| < |s|
    requires 'A' <= s[i] <= 'D' && s[i + 1] == ')' && s[i + 2] == ' '
    requires s[i + 3..i + 3 + |o|] == o && s[i + 3 + |o|] == '\n'
    ensures OptionAt(s, i) == Some((i + 3 + |o|, o))
  {
    var e := i + 3 + |o|;
    assert s[i + 3] == o[0];
    SkipRegexSpaceStopsAt(s, i + 2, i + 3);
    forall m | i + 3 <= m < e ensures s[m] != '\n' {
      assert s[m] == o[m - (i + 3)];
    }
    LineEndStopsAt(s, i + 3, e);
  }

  /** One option line "X) o\n" in front of u is one match, ending at its
      line feed. */
  lemma LineMatch(l: char, o: string, u: string)
    requires 'A' <= l <= 'D' && OneLineOption(o)
    ensures var s := [l, ')', ' '] + o + "\n" + u;
            OptionAt(s, 0) == Some((3 + |o|, o)) && s[3 + |o|] == '\n'
  {
    var s := [l, ')', ' '] + o + "\n" + u;
    assert s[0] == l && s[1] == ')' && s[2] == ' ' && s[3 + |o|] == '\n';
    assert s[3..3 + |o|] == o;
    OneLineAt(s, 0, o);
  }

  /** A line that is one match, with o as its group and a line feed at its
      end, in front of u: o trimmed, then the matches in u. */
  lemma MatchedLine(line: string, o: string, u: string)
    requires |line| == 4 + |o|
    requires OptionAt(line + u, 0) == Some((3 + |o|, o)) && (line + u)[3 + |o|] == '\n'
    ensures OptionsFrom(line + u, 0) == [Trim(o)] + OptionsFrom(u, 0)
  {
    var s, e, n := line + u, 3 + |o|, |line|;
    OptionsFromShift(line, u, 0, n);
    OptionsFromSkip(s, e, n);
    OptionsFromMatch(s, 0, e, o);
  }

  /** One option line in front of u: its text, trimmed, then the matches in u. */
  lemma LineRead(l: char, o: string, u: string, s: string)
    requires 'A' <= l <= 'D' && OneLineOption(o)
    requires s == [l, ')', ' '] + o + "\n" + u
    ensures OptionsFrom(s, 0) == [Trim(o)] + OptionsFrom(u, 0)
  {
    LineMatch(l, o, u);
    MatchedLine([l, ')', ' '] + o + "\n", o, u);
  }

  /** Option lines in front of t: their texts, trimmed, in order, then the
      matches in t. Every line is one match whatever "X)" its text holds,
      because the search resumes at the line's end. */
  lemma {:induction false} LinesThen(letters: seq<char>, texts: seq<string>, t: string)
    requires |letters| == |texts| && OptionLetters(letters) && OneLineOptions(texts)
    ensures OptionsFrom(OptionLines(letters, texts) + t, 0) == Trimmed(texts) + OptionsFrom(t, 0)
    decreases |letters|
  {
    var s := OptionLines(letters, texts) + t;
    if letters == [] {
      assert s == t;
      assert Trimmed(texts) + OptionsFrom(t, 0) == OptionsFrom(t, 0);
      assert OptionsFrom(s, 0) == OptionsFrom(t, 0);
    } else {
      var rest := OptionLines(letters[1..], texts[1..]);
      assert s == [letters[0], ')', ' '] + texts[0] + "\n" + (rest + t);
      TailLetters(letters);
      TailOptions(texts);
      LinesThen(letters[1..], texts[1..], t);
      LineRead(letters[0], texts[0], rest + t, s);
      var head, more, after := Trim(texts[0]), Trimmed(texts[1..]), OptionsFrom(t, 0);
      assert OptionsFrom(s, 0) == [head] + (more + after);
      assert [head] + (more + after) == ([head] + more) + after;
    }
  }

  lemma TailLetters(letters: seq<char>)
    requires letters != [] && OptionLetters(letters)
    ensures OptionLetters(letters[1..])
  {
    forall k | 0 <= k < |letters| - 1 ensures 'A' <= letters[1..][k] <= 'D' {
      assert letters[1..][k] == letters[k + 1];
    }
  }

  lemma TailOptions(texts: seq<string>)
    requires texts != [] && OneLineOptions(texts)
    ensures OneLineOptions(texts[1..]) && OneLineOption(texts[0])
  {
    forall k | 0 <= k < |texts| - 1 ensures OneLineOption(texts[1..][k]) {
      assert texts[1..][k] == texts[k + 1];
    }
  }

  /** The option lines alone read back as their trimmed texts, in order. */
  lemma OptionsRoundTrip(letters: seq<char>, texts: seq<string>)
    requires |letters| == |texts| && OptionLetters(letters) && OneLineOptions(texts)
    ensures OptionsFrom(OptionLines(letters, texts), 0) == Trimmed(texts)
  {
    var s := OptionLines(letters, texts);
    assert s + [] == s;
    OptionsAtEnd([], 0);
    LinesThen(letters, texts, []);
    assert Trimmed(texts) + [] == Trimmed(texts);
  }

  /** The length of the option lines: four characters besides each text. */
  function LinesLength(texts: seq<string>): nat
  {
    if texts == [] then 0 else 4 + |texts[0]| + LinesLength(texts[1..])
  }

  /** s holds the option lines for letters and texts from index i on, told
      line by line. */
  predicate LinesAt(s: string, i: nat, letters: seq<char>, texts: seq<string>)
    requires |letters| == |texts|
    decreases |texts|
    ensures LinesAt(s, i, letters, texts) ==> i + LinesLength(texts) <= |s|
  {
    if letters == [] then i <= |s|
    else
      var e := i + 3 + |texts[0]|;
      && e < |s| && s[i] == letters[0] && s[i + 1] == ')' && s[i + 2] == ' '
      && s[i + 3..e] == texts[0] && s[e] == '\n'
      && LinesAt(s, e + 1, letters[1..], texts[1..])
  }

  /** The option lines take four characters besides each text. */
  lemma {:induction false} OptionLinesLength(letters: seq<char>, texts: seq<string>)
    requires |letters| == |texts|
    ensures |OptionLines(letters, texts)| == LinesLength(texts)
    decreases |letters|
  {
    if letters != [] {
      OptionLinesLength(letters[1..], texts[1..]);
    }
  }

  /** Option lines written between x and y are found after x. */
  lemma {:induction false} LinesIn(x: string, letters: seq<char>, texts: seq<string>, y: string, s: string)
    requires |letters| == |texts| && s == x + OptionLines(letters, texts) + y
    ensures LinesAt(s, |x|, letters, texts)
    decreases |letters|
  {
    if letters == [] {
      assert |s| == |x| + |y|;
    } else {
      var o := texts[0];
      var line := [letters[0], ')', ' '] + o + "\n";
      var rest := OptionLines(letters[1..], texts[1..]);
      var n := |x| + 4 + |o|;
      LineInside(x, letters[0], o, rest, y, s);
      LinesIn(x + line, letters[1..], texts[1..], y, s);
      LinesAtStep(s, |x|, letters, texts, n);
    }
  }

  /** The first option line, read in place. */
  lemma LineInside(x: string, l: char, o: string, rest: string, y: string, s: string)
    requires s == x + ([l, ')', ' '] + o + "\n" + rest) + y
    ensures s == (x + ([l, ')', ' '] + o + "\n")) + rest + y
    ensures |x + ([l, ')', ' '] + o + "\n")| == |x| + 4 + |o|
    ensures |x| + 3 + |o| < |s| && s[|x|] == l && s[|x| + 1] == ')' && s[|x| + 2] == ' '
    ensures s[|x| + 3..|x| + 3 + |o|] == o && s[|x| + 3 + |o|] == '\n'
  {
    var line := [l, ')', ' '] + o + "\n";
    assert s == (x + line) + rest + y;
    var e := |x| + 3 + |o|;
    assert s[|x|] == line[0] && s[|x| + 1] == line[1] && s[|x| + 2] == line[2] && s[e] == line[3 + |o|];
    assert s[|x| + 3..e] == o by {
      forall k | 0 <= k < |o| ensures s[|x| + 3 + k] == o[k] {
        assert s[|x| + 3 + k] == line[3 + k];
      }
    }
  }

  /** One line of LinesAt, then the rest from n on. */
  lemma LinesAtStep(s: string, i: nat, letters: seq<char>, texts: seq<string>, n: nat)
    requires |letters| == |texts| > 0 && n == i + 4 + |texts[0]|
    requires i + 3 + |texts[0]| < |s| && s[i] == letters[0] && s[i + 1] == ')' && s[i + 2] == ' '
    requires s[i + 3..i + 3 + |texts[0]|] == texts[0] && s[i + 3 + |texts[0]|] == '\n'
    requires LinesAt(s, n, letters[1..], texts[1..])
    ensures LinesAt(s, i, letters, texts)
  {
  }

  // ---------------------------------------------------------------------
  // One question block.
  // ---------------------------------------------------------------------

  const AnswerTag: string := "correct answer:"

  /** No "Correct Answer:" (in any case) starts in t. */
  predicate NoAnswerTag(t: string)
  {
    forall k :: 0 <= k <= |t| ==> !MatchesIgnoreCaseAt(t, k, AnswerTag)
  }

  predicate NoAnswerTags(texts: seq<string>)
  {
    forall k :: 0 <= k < |texts| ==> NoAnswerTag(texts[k])
  }

  /** No "X)" starts in t. */
  predicate NoOptionMark(t: string)
  {
    forall k :: 0 <= k < |t| ==> !OptionMarkAt(t, k)
  }

  /** A block laid out the way the parser accepts it: the question text, a line feed,
      the option lines, and the answer line. */
  function BlockText(q: string, letters: seq<char>, texts: seq<string>, answer: char): string
    requires |letters| == |texts|
  {
    q + "\n" + OptionLines(letters, texts) + "Correct Answer: " + [answer]
  }

  /** A match that lies inside s[a..b] is a match of the slice. */
  lemma MatchInSliceBack(s: string, a: nat, b: nat, k: nat, lit: string)
    requires a <= k && a <= b <= |s|
    ensures MatchesIgnoreCaseAt(s, k, lit) && k + |lit| <= b ==> MatchesIgnoreCaseAt(s[a..b], k - a, lit)
  {
    if MatchesIgnoreCaseAt(s, k, lit) && k + |lit| <= b {
      forall j | 0 <= j < |lit| ensures LowerAscii(s[a..b][k - a + j]) == lit[j] {
        assert s[a..b][k - a + j] == s[k + j];
      }
    }
  }

  /** The tag has no line feed, and none of the first characters of an
      option line can start it. */
  lemma AnswerTagChars()
    ensures forall j :: 0 <= j < |AnswerTag| ==> AnswerTag[j] != '\n'
    ensures AnswerTag[0] == 'c' && AnswerTag[1] == 'o'
  {
  }

  /** No answer tag starts in a text that has none, up to and including the
      line feed at e that ends it. */
  lemma NoTagUpTo(s: string, a: nat, e: nat)
    requires a <= e < |s| && s[e] == '\n' && NoAnswerTag(s[a..e])
    ensures forall k :: a <= k <= e ==> !MatchesIgnoreCaseAt(s, k, AnswerTag)
  {
    AnswerTagChars();
    forall k | a <= k <= e ensures !MatchesIgnoreCaseAt(s, k, AnswerTag) {
      MatchInSliceBack(s, a, e, k, AnswerTag);
      MatchCharAt(s, k, AnswerTag, e);
    }
  }

  /** Each character of a match folds to the literal's character. */
  lemma MatchCharAt(s: string, k: nat, lit: string, m: nat)
    ensures MatchesIgnoreCaseAt(s, k, lit) && k <= m < k + |lit| ==> LowerAscii(s[m]) == lit[m - k]
  {
    if MatchesIgnoreCaseAt(s, k, lit) && k <= m < k + |lit| {
      assert s[k + (m - k)] == s[m];
    }
  }

  /** No answer tag starts inside option lines whose texts have none. */
  lemma {:induction false} NoTagInOptionLines(s: string, i: nat, letters: seq<char>, texts: seq<string>)
    requires |letters| == |texts| && NoAnswerTags(texts) && LinesAt(s, i, letters, texts)
    ensures forall k :: i <= k < i + LinesLength(texts) ==> !MatchesIgnoreCaseAt(s, k, AnswerTag)
    decreases |letters|
  {
    if letters != [] {
      var e := i + 3 + |texts[0]|;
      var n := e + 1;
      assert NoAnswerTag(s[i + 3..e]);
      NoTagUpTo(s, i + 3, e);
      NoTagInLineHead(s, i);
      TailTags(texts);
      NoTagInOptionLines(s, n, letters[1..], texts[1..]);
    }
  }

  /** No answer tag starts at the letter, parenthesis or space of an option line. */
  lemma NoTagInLineHead(s: string, i: nat)
    requires i + 2 < |s| && s[i + 1] == ')' && s[i + 2] == ' '
    ensures forall k :: i <= k < i + 3 ==> !MatchesIgnoreCaseAt(s, k, AnswerTag)
  {
    AnswerTagChars();
    assert !MatchesIgnoreCaseAt(s, i, AnswerTag) by {
      assert LowerAscii(s[i + 1]) != AnswerTag[1];
    }
    assert !MatchesIgnoreCaseAt(s, i + 1, AnswerTag) by {
      assert LowerAscii(s[i + 1]) != AnswerTag[0];
    }
    assert !MatchesIgnoreCaseAt(s, i + 2, AnswerTag) by {
      assert LowerAscii(s[i + 2]) != AnswerTag[0];
    }
  }

  lemma TailTags(texts: seq<string>)
    requires texts != [] && NoAnswerTags(texts)
    ensures NoAnswerTags(texts[1..])
  {
    forall k | 0 <= k < |texts| - 1 ensures NoAnswerTag(texts[1..][k]) {
      assert texts[1..][k] == texts[k + 1];
    }
  }

  /** A trailing line feed does not change the trimmed text. */
  lemma TrimLineFeed(q: string)
    ensures Trim(q + "\n") == Trim(q)
  {
    var t := Trim(q);
    var a := TrimStartIndex(q, 0);
    var pre, post := q[..a], q[a + |t|..];
    assert q == pre + t + post;
    assert q + "\n" == pre + t + (post + "\n");
    TrimPadded(pre, t, post);
    TrimPadded(pre, t, post + "\n");
  }

  /** s is a block laid out as BlockText lays it out. */
  predicate BlockAt(s: string, q: string, letters: seq<char>, texts: seq<string>, answer: char)
    requires |letters| == |texts|
  {
    var p := |q| + 1 + LinesLength(texts);
    && |s| == p + 17 && s[..|q|] == q && s[|q|] == '\n'
    && LinesAt(s, |q| + 1, letters, texts)
    && s[p..] == "Correct Answer: " + [answer]
  }

  lemma BlockTextIsBlockAt(q: string, letters: seq<char>, texts: seq<string>, answer: char)
    requires |letters| == |texts|
    ensures BlockAt(BlockText(q, letters, texts, answer), q, letters, texts, answer)
  {
    var tail := "Correct Answer: " + [answer];
    var s := BlockText(q, letters, texts, answer);
    assert s == (q + "\n") + OptionLines(letters, texts) + tail;
    LinesIn(q + "\n", letters, texts, tail, s);
    OptionLinesLength(letters, texts);
    var p := |q| + 1 + LinesLength(texts);
    assert s[p..] == tail;
    assert s[..|q|] == q;
  }

  /** The options of a laid-out block are its option texts, trimmed. */
  lemma BlockOptions(q: string, letters: seq<char>, texts: seq<string>, answer: char)
    requires |letters| == |texts| && OptionLetters(letters) && OneLineOptions(texts)
    requires NoOptionMark(q)
    ensures OptionsFrom(BlockText(q, letters, texts, answer), 0) == Trimmed(texts)
  {
    var tail := "Correct Answer: " + [answer];
    var p := q + "\n";
    var r := OptionLines(letters, texts) + tail;
    var s := BlockText(q, letters, texts, answer);
    BlockSplit(q, letters, texts, answer);
    QuestionHasNoMark(q, r);
    AnswerLineOptions(answer, tail);
    assert s == p + r;
    PrefixSkip(p, r);
    LinesThen(letters, texts, tail);
    assert Trimmed(texts) + [] == Trimmed(texts);
  }

  /** A block is its question line, then the option lines and the answer line. */
  lemma BlockSplit(q: string, letters: seq<char>, texts: seq<string>, answer: char)
    requires |letters| == |texts|
    ensures BlockText(q, letters, texts, answer)
            == (q + "\n") + (OptionLines(letters, texts) + ("Correct Answer: " + [answer]))
  {
  }

  /** No "X)" starts in a question line, whatever follows it. */
  lemma QuestionHasNoMark(q: string, r: string)
    requires NoOptionMark(q)
    ensures forall k :: 0 <= k < |q + "\n"| ==> !OptionMarkAt(q + "\n" + r, k)
  {
    var s := q + "\n" + r;
    forall k | 0 <= k < |q + "\n"| ensures !OptionMarkAt(s, k) {
      assert s[|q|] == '\n';
      if k + 1 < |q| {
        assert s[k] == q[k] && s[k + 1] == q[k + 1];
        assert !OptionMarkAt(q, k);
      }
    }
  }

  /** A prefix in which no "X)" starts yields no match. */
  lemma PrefixSkip(p: string, r: string)
    requires forall k :: 0 <= k < |p| ==> !OptionMarkAt(p + r, k)
    ensures OptionsFrom(p + r, 0) == OptionsFrom(r, 0)
  {
    var n := |p|;
    OptionsFromShift(p, r, 0, n);
    SkipNoOptionMark(p + r, 0, n);
  }

  /** The answer line holds no option. */
  lemma AnswerLineOptions(answer: char, tail: string)
    requires tail == "Correct Answer: " + [answer]
    ensures OptionsFrom(tail, 0) == []
  {
    var lit := "Correct Answer: ";
    forall k | 0 <= k < |tail| ensures !OptionMarkAt(tail, k) {
      if k < 15 {
        assert tail[k + 1] == lit[k + 1];
      } else if k == 15 {
        assert tail[k] == ' ';
      }
    }
    OptionsAtEnd(tail, |tail|);
    SkipNoOptionMark(tail, 0, |tail|);
  }

  /** The question text of a laid-out block is the written one, trimmed. */
  lemma BlockQuestionText(s: string, q: string, letters: seq<char>, texts: seq<string>, answer: char)
    requires |letters| == |texts| > 0 && letters[0] == 'A'
    requires NoOptionMark(q) && BlockAt(s, q, letters, texts, answer)
    ensures Trim(SubstringBefore(s, "A)")) == Trim(q)
  {
    var a := |q| + 1;
    assert s[a] == 'A' && s[a + 1] == ')';
    assert OccursAt(s, "A)", a);
    forall k: nat | k < a ensures !OccursAt(s, "A)", k) {
      var w := s[k..k + 2];
      assert w[0] == s[k] && w[1] == s[k + 1];
      if k + 1 < |q| {
        assert s[k] == s[..|q|][k] && s[k + 1] == s[..|q|][k + 1];
        assert !OptionMarkAt(q, k);
      } else if k + 1 == |q| {
        assert s[k + 1] == '\n';
      } else {
        assert s[k] == '\n';
      }
    }
    var before := SubstringBefore(s, "A)");
    assert |before| == a;
    assert before == q + "\n";
    TrimLineFeed(q);
  }

  /** The answer of a laid-out block is the written letter. */
  lemma BlockAnswer(s: string, q: string, letters: seq<char>, texts: seq<string>, answer: char)
    requires |letters| == |texts| && NoAnswerTag(q) && NoAnswerTags(texts) && IsAnswerLetter(answer)
    requires BlockAt(s, q, letters, texts, answer)
    ensures FindCorrectAnswer(s, 0) == Some(answer)
  {
    var a := |q| + 1;
    var p := a + LinesLength(texts);
    var tail := "Correct Answer: " + [answer];
    assert NoAnswerTag(s[0..|q|]) by {
      assert s[0..|q|] == s[..|q|];
    }
    NoTagUpTo(s, 0, |q|);
    NoTagInOptionLines(s, a, letters, texts);
    forall k | 0 <= k < |tail| ensures s[p + k] == tail[k] {
      assert s[p..][k] == s[p + k];
    }
    assert MatchesIgnoreCaseAt(s, p, AnswerTag);
    SkipRegexSpaceStopsAt(s, p + 15, p + 16);
    assert CorrectAnswerAt(s, p) == Some(answer);
  }

  /** A block laid out that way is parsed back into the question it
      was written from: the trimmed question text, the trimmed options in
      order, and the answer letter, with nothing selected. The options may
      use any of the letters A-D; the first must be "A)", where the question
      text ends. */
  lemma BlockRoundTrip(q: string, letters: seq<char>, texts: seq<string>, answer: char)
    requires |letters| == |texts| >= 4 && letters[0] == 'A'
    requires OptionLetters(letters) && OneLineOptions(texts)
    requires NoOptionMark(q) && NoAnswerTag(q) && NoAnswerTags(texts)
    requires IsAnswerLetter(answer)
    ensures ParseBlock(BlockText(q, letters, texts, answer))
            == Some(MCQuestion(Trim(q), Trimmed(texts), [answer], None))
  {
    var s := BlockText(q, letters, texts, answer);
    BlockTextIsBlockAt(q, letters, texts, answer);
    BlockOptions(q, letters, texts, answer);
    BlockQuestionText(s, q, letters, texts, answer);
    BlockAnswer(s, q, letters, texts, answer);
  }
}
