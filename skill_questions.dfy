/** The multiple-choice skill assessment: turning the model's free text into
    questions, scoring them, and the state the assessment screen keeps
    while the user answers (selection, next question, submit, retake). */
module SkillQuestions {
  import opened Text
  import opened Records

  /** One parsed question. `correctAnswer` is the letter captured after
      "Correct Answer:", kept as a one-letter string; `selectedAnswer` is the
      letter the user picked, None until an option is picked. */
  datatype MCQuestion = MCQuestion(
    question: string,
    options: seq<string>,
    correctAnswer: string,
    selectedAnswer: Option<string>)

  /** What the parser promises of every question it emits: at least four
      options, each trimmed and on one line, and a one-letter answer from
      A-D in either case; nothing is selected yet. */
  predicate Emitted(q: MCQuestion)
  {
    && |q.options| >= 4
    && (forall o :: o in q.options ==> IsOptionText(o))
    && |q.correctAnswer| == 1 && IsAnswerLetter(q.correctAnswer[0])
    && q.selectedAnswer.None?
  }

  predicate IsOptionText(o: string)
  {
    && '\n' !in o
    && (o == [] || (!IsWhitespace(o[0]) && !IsWhitespace(o[|o| - 1])))
  }

  /** A letter matched by `[A-D]` under `(?i)`. */
  predicate IsAnswerLetter(c: char)
  {
    'a' <= LowerAscii(c) <= 'd'
  }

  // ---------------------------------------------------------------------
  // Scanners for the three regular expressions of the parser.
  // ---------------------------------------------------------------------

  /** The first index at or after j that is not a regex `\s`. */
  function SkipRegexSpace(s: string, j: nat): (k: nat)
    requires j <= |s|
    decreases |s| - j
    ensures j <= k <= |s|
    ensures forall m :: j <= m < k ==> IsRegexSpace(s[m])
    ensures k < |s| ==> !IsRegexSpace(s[k])
  {
    if j < |s| && IsRegexSpace(s[j]) then SkipRegexSpace(s, j + 1) else j
  }

  /** The first index at or after j that is not a decimal digit. */
  function SkipDigits(s: string, j: nat): (k: nat)
    requires j <= |s|
    decreases |s| - j
    ensures j <= k <= |s|
    ensures forall m :: j <= m < k ==> IsDigit(s[m])
    ensures k < |s| ==> !IsDigit(s[k])
  {
    if j < |s| && IsDigit(s[j]) then SkipDigits(s, j + 1) else j
  }

  /** For a "question" found at i, the part `(?:\s*\d+)?:` of the block
      separator ends with the colon at c: either the colon comes right after
      the word, or blanks, at least one digit, then the colon. */
  predicate MarkerColonAt(s: string, i: nat, c: nat)
  {
    var h := i + 8;
    && h <= c < |s| && s[c] == ':'
    && (c == h || exists d: nat :: h <= d < c && BlanksThenDigits(s, h, d, c))
  }

  /** s[h..d] is blanks and s[d..c] is one or more digits. */
  predicate BlanksThenDigits(s: string, h: nat, d: nat, c: nat)
  {
    && h <= d < c <= |s|
    && (forall m :: h <= m < d ==> IsRegexSpace(s[m]))
    && (forall m :: d <= m < c ==> IsDigit(s[m]))
  }

  /** The block separator `(?i)Question(?:\s*\d+)?:\s*` tried at index i:
      "question" in any ASCII case, optionally blanks and a number, a colon,
      then all following blanks. Returns where the match ends. */
  function MarkerEnd(s: string, i: nat): (e: Option<nat>)
    requires i <= |s|
    ensures e.Some? <==> MatchesIgnoreCaseAt(s, i, "question") && exists c: nat :: MarkerColonAt(s, i, c)
    ensures e.Some? ==> exists c: nat :: MarkerColonAt(s, i, c) && e.value == SkipRegexSpace(s, c + 1)
    ensures e.Some? ==> i + 9 <= e.value <= |s|
  {
    if !MatchesIgnoreCaseAt(s, i, "question") then None
    else
      var h := i + 8;
      if h < |s| && s[h] == ':' then
        assert MarkerColonAt(s, i, h);
        Some(SkipRegexSpace(s, h + 1))
      else
        var d := SkipRegexSpace(s, h);
        var n := SkipDigits(s, d);
        MarkerColonUnique(s, i, d, n);
        if d < n < |s| && s[n] == ':' then
          assert BlanksThenDigits(s, h, d, n);
          assert MarkerColonAt(s, i, n);
          Some(SkipRegexSpace(s, n + 1))
        else None
  }

  /** Without a colon right after the word, the only colon the separator can
      end on is the one right after the digits that follow the blanks. */
  lemma MarkerColonUnique(s: string, i: nat, d: nat, n: nat)
    requires i + 8 <= |s| && !(i + 8 < |s| && s[i + 8] == ':')
    requires d == SkipRegexSpace(s, i + 8) && n == SkipDigits(s, d)
    ensures forall c: nat :: MarkerColonAt(s, i, c) ==> c == n && d < n
  {
    var h := i + 8;
    forall c: nat | MarkerColonAt(s, i, c) ensures c == n && d < n {
      assert c != h;
      var d': nat :| h <= d' < c && BlanksThenDigits(s, h, d', c);
      SkipRegexSpaceStopsAt(s, h, d');
      SkipDigitsStopsAt(s, d', c);
    }
  }

  /** Blanks up to a non-blank at k: skipping blanks from j stops at k. */
  lemma {:induction false} SkipRegexSpaceStopsAt(s: string, j: nat, k: nat)
    requires j <= k < |s| && !IsRegexSpace(s[k])
    requires forall m :: j <= m < k ==> IsRegexSpace(s[m])
    ensures SkipRegexSpace(s, j) == k
    decreases k - j
  {
    if j < k { SkipRegexSpaceStopsAt(s, j + 1, k); }
  }

  /** Digits up to a non-digit at k: skipping digits from j stops at k. */
  lemma {:induction false} SkipDigitsStopsAt(s: string, j: nat, k: nat)
    requires j <= k < |s| && !IsDigit(s[k])
    requires forall m :: j <= m < k ==> IsDigit(s[m])
    ensures SkipDigits(s, j) == k
    decreases k - j
  {
    if j < k { SkipDigitsStopsAt(s, j + 1, k); }
  }

  /** Kotlin's split(Regex) with that separator, scanning from index i with
      the current piece starting at `start`: the pieces between successive
      leftmost non-overlapping matches, in order. SplitPiecesHaveNoMarker
      states that no piece holds a match, and QuizSplit.QuizBlocks that a
      reply laid out in "Question n: " blocks splits back into its blocks. */
  function SplitOnMarkers(s: string, start: nat, i: nat): (pieces: seq<string>)
    requires start <= i <= |s|
    decreases |s| - i
    ensures |pieces| >= 1
  {
    if i == |s| then [s[start..]]
    else
      match MarkerEnd(s, i)
      case Some(e) => [s[start..i]] + SplitOnMarkers(s, e, e)
      case None => SplitOnMarkers(s, start, i + 1)
  }

  /** `.filter { it.isNotBlank() }`. */
  function NonBlank(pieces: seq<string>): (r: seq<string>)
    ensures |r| <= |pieces|
    ensures forall b :: b in r ==> b in pieces && !IsBlank(b)
    ensures forall b :: b in pieces && !IsBlank(b) ==> b in r
  {
    if pieces == [] then []
    else if IsBlank(pieces[0]) then NonBlank(pieces[1..])
    else [pieces[0]] + NonBlank(pieces[1..])
  }

  /** No block separator starts anywhere in p. */
  predicate NoMarkerIn(p: string)
  {
    forall k :: 0 <= k <= |p| ==> MarkerEnd(p, k).None?
  }

  /** A separator found in a slice of s is also found in s at the same
      place: the pattern looks at nothing before its start, and whatever of
      it the slice holds, s holds too. */
  lemma MarkerInSlice(s: string, a: nat, b: nat, k: nat)
    requires a <= b <= |s| && k <= b - a
    ensures MarkerEnd(s[a..b], k).Some? ==> MarkerEnd(s, a + k).Some?
  {
    var p := s[a..b];
    if MarkerEnd(p, k).Some? {
      var c: nat :| MarkerColonAt(p, k, c);
      assert MatchesIgnoreCaseAt(s, a + k, "question");
      if c != k + 8 {
        var d: nat :| k + 8 <= d < c && BlanksThenDigits(p, k + 8, d, c);
        forall m | a + k + 8 <= m < a + d ensures IsRegexSpace(s[m]) {
          assert s[m] == p[m - a];
        }
        forall m | a + d <= m < a + c ensures IsDigit(s[m]) {
          assert s[m] == p[m - a];
        }
        assert BlanksThenDigits(s, a + k + 8, a + d, a + c);
      }
      assert MarkerColonAt(s, a + k, a + c);
    }
  }

  /** Every piece `split` returns is free of separators: the split cuts at
      every match, scanning from `i` with no match between `start` and `i`. */
  lemma {:induction false} SplitPiecesHaveNoMarker(s: string, start: nat, i: nat)
    requires start <= i <= |s|
    requires forall k :: start <= k < i ==> MarkerEnd(s, k).None?
    ensures forall p :: p in SplitOnMarkers(s, start, i) ==> NoMarkerIn(p)
    decreases |s| - i
  {
    if i == |s| {
      forall k | 0 <= k <= |s| - start { MarkerInSlice(s, start, |s|, k); }
      assert NoMarkerIn(s[start..|s|]);
      assert s[start..] == s[start..|s|];
    } else {
      match MarkerEnd(s, i)
      case Some(e) =>
        forall k | 0 <= k < i - start { MarkerInSlice(s, start, i, k); }
        SplitPiecesHaveNoMarker(s, e, e);
      case None =>
        SplitPiecesHaveNoMarker(s, start, i + 1);
    }
  }

  /** Filtering blank pieces distributes over concatenation, so the kept
      pieces stay in order and keep their multiplicity. */
  lemma {:induction false} NonBlankAppend(a: seq<string>, b: seq<string>)
    ensures NonBlank(a + b) == NonBlank(a) + NonBlank(b)
  {
    if a == [] {
      assert a + b == b;
    } else {
      assert (a + b)[0] == a[0];
      assert (a + b)[1..] == a[1..] + b;
      NonBlankAppend(a[1..], b);
    }
  }

  /** A single piece is kept exactly when it is not blank. */
  lemma NonBlankSingle(b: string)
    ensures NonBlank([b]) == if IsBlank(b) then [] else [b]
  {
    assert [b][1..] == [];
  }

  /** The question blocks of a model response. */
  function Blocks(text: string): seq<string>
  {
    NonBlank(SplitOnMarkers(text, 0, 0))
  }

  /** The first index at or after j holding a line feed, or |s|. */
  function LineEnd(s: string, j: nat): (k: nat)
    requires j <= |s|
    decreases |s| - j
    ensures j <= k <= |s|
    ensures forall m :: j <= m < k ==> s[m] != '\n'
    ensures k < |s| ==> s[k] == '\n'
  {
    if j < |s| && s[j] != '\n' then LineEnd(s, j + 1) else j
  }

  /** The last index in [lo, hi) that does not hold a line feed. */
  function LastNonNewline(s: string, lo: nat, hi: nat): (p: Option<nat>)
    requires lo <= hi <= |s|
    decreases hi - lo
    ensures p.Some? ==> lo <= p.value < hi && s[p.value] != '\n'
                        && forall m :: p.value < m < hi ==> s[m] == '\n'
    ensures p.None? ==> forall m :: lo <= m < hi ==> s[m] == '\n'
  {
    if lo == hi then None
    else if s[hi - 1] != '\n' then Some(hi - 1)
    else LastNonNewline(s, lo, hi - 1)
  }

  /** The part `\s*([^\n]+)` of the option pattern from lo on, with the
      backtracking of the greedy `\s*`: the bounds of the group. The group
      is one line, runs to a line feed or the end, and exists exactly when
      some character after lo is not a line feed. */
  function OptionGroup(s: string, lo: nat): (g: Option<(nat, nat)>)
    requires lo <= |s|
    ensures g.Some? ==> lo <= g.value.0 < g.value.1 <= |s|
    ensures g.Some? ==> forall m :: g.value.0 <= m < g.value.1 ==> s[m] != '\n'
    ensures g.Some? ==> g.value.1 == |s| || s[g.value.1] == '\n'
    ensures g.Some? <==> exists k :: lo <= k < |s| && s[k] != '\n'
    ensures SkipRegexSpace(s, lo) < |s| ==>
              g == Some((SkipRegexSpace(s, lo), LineEnd(s, SkipRegexSpace(s, lo))))
    ensures SkipRegexSpace(s, lo) == |s| && g.Some? ==>
              g.value.1 == g.value.0 + 1 && forall m :: g.value.1 <= m < |s| ==> s[m] == '\n'
  {
    var j := SkipRegexSpace(s, lo);
    if j < |s| then
      assert s[j] != '\n';
      Some((j, LineEnd(s, j)))
    else
      match LastNonNewline(s, lo, |s|)
      case Some(p) => Some((p, p + 1))
      case None => None
  }

  /** The option pattern `([A-D])\)\s*([^\n]+)` tried at index i: returns
      where the match ends and the text of group 2. */
  function OptionAt(s: string, i: nat): (m: Option<(nat, string)>)
    requires i <= |s|
    ensures m.Some? ==> i + 1 < |s| && 'A' <= s[i] <= 'D' && s[i + 1] == ')'
    ensures m.Some? ==> i + 3 <= m.value.0 <= |s| && 1 <= |m.value.1| <= m.value.0 - (i + 2)
                        && m.value.1 == s[m.value.0 - |m.value.1|..m.value.0]
                        && '\n' !in m.value.1
    ensures m.Some? ==> m.value.0 == |s| || s[m.value.0] == '\n'
    ensures m.Some? <==> (i + 1 < |s| && 'A' <= s[i] <= 'D' && s[i + 1] == ')'
                          && exists k :: i + 2 <= k < |s| && s[k] != '\n')
    ensures m.Some? && SkipRegexSpace(s, i + 2) < |s| ==>
              var j := SkipRegexSpace(s, i + 2);
              m.value == (LineEnd(s, j), s[j..LineEnd(s, j)])
    ensures m.Some? && SkipRegexSpace(s, i + 2) == |s| ==>
              |m.value.1| == 1 && forall k :: m.value.0 <= k < |s| ==> s[k] == '\n'
  {
    if !(i + 1 < |s| && 'A' <= s[i] <= 'D' && s[i + 1] == ')') then None
    else
      match OptionGroup(s, i + 2)
      case Some((g, e)) => Some((e, s[g..e]))
      case None => None
  }

  /** `optionRegex.findAll(block).map { it.groupValues[2].trim() }` from
      index i on: every leftmost non-overlapping match, trimmed, in order. */
  function OptionsFrom(s: string, i: nat): (opts: seq<string>)
    requires i <= |s|
    decreases |s| - i
    ensures forall o :: o in opts ==> IsOptionText(o)
  {
    if i == |s| then []
    else
      match OptionAt(s, i)
      case Some((k, g)) =>
        TrimKeeps(g, '\n');
        [Trim(g)] + OptionsFrom(s, k)
      case None => OptionsFrom(s, i + 1)
  }

  /** The answer pattern `(?i)Correct Answer:\s*([A-D])` tried at index i:
      returns the captured letter as written. */
  function CorrectAnswerAt(s: string, i: nat): (c: Option<char>)
    requires i <= |s|
    ensures c.Some? ==> MatchesIgnoreCaseAt(s, i, "correct answer:") && IsAnswerLetter(c.value)
  {
    if !MatchesIgnoreCaseAt(s, i, "correct answer:") then None
    else
      var j := SkipRegexSpace(s, i + 15);
      if j < |s| && IsAnswerLetter(s[j]) then Some(s[j]) else None
  }

  /** `correctAnswerRegex.find(block)` from index i: the leftmost match. */
  function FindCorrectAnswer(s: string, i: nat): (c: Option<char>)
    requires i <= |s|
    decreases |s| - i
    ensures c.Some? ==> (IsAnswerLetter(c.value)
                         && exists k :: i <= k <= |s| && CorrectAnswerAt(s, k) == c
                                        && forall m :: i <= m < k ==> CorrectAnswerAt(s, m).None?)
    ensures c.None? ==> forall k :: i <= k <= |s| ==> CorrectAnswerAt(s, k).None?
  {
    if i == |s| then CorrectAnswerAt(s, i)
    else if CorrectAnswerAt(s, i).Some? then CorrectAnswerAt(s, i)
    else FindCorrectAnswer(s, i + 1)
  }

  // ---------------------------------------------------------------------
  // Parsing.
  // ---------------------------------------------------------------------

  /** One block: its text before the first "A)", trimmed; all option matches;
      the first correct-answer letter. The block yields a question only when
      an answer letter was found and at least four options matched. */
  function ParseBlock(block: string): (r: Option<MCQuestion>)
    ensures r.Some? <==> FindCorrectAnswer(block, 0).Some? && |OptionsFrom(block, 0)| >= 4
    ensures r.Some? ==> Emitted(r.value)
    ensures r.Some? ==> r.value.options == OptionsFrom(block, 0)
                        && r.value.correctAnswer == [FindCorrectAnswer(block, 0).value]
    ensures r.Some? ==> r.value.question == Trim(SubstringBefore(block, "A)"))
  {
    var questionText := Trim(SubstringBefore(block, "A)"));
    var options := OptionsFrom(block, 0);
    match FindCorrectAnswer(block, 0)
    case Some(letter) =>
      if |options| >= 4 then Some(MCQuestion(questionText, options, [letter], None)) else None
    case None => None
  }

  /** The questions one block yields: none or one. */
  function BlockQuestions(block: string): (qs: seq<MCQuestion>)
    ensures |qs| <= 1
  {
    match ParseBlock(block)
    case Some(q) => [q]
    case None => []
  }

  /** The questions a list of blocks yields, in block order. */
  function ParsedQuestions(blocks: seq<string>): (qs: seq<MCQuestion>)
    ensures |qs| <= |blocks|
  {
    if blocks == [] then []
    else BlockQuestions(blocks[0]) + ParsedQuestions(blocks[1..])
  }

  /** Every question the parser emits has at least four one-line options and
      an answer letter, and no selection yet. */
  lemma {:induction false} ParsedQuestionsEmitted(blocks: seq<string>)
    ensures forall q :: q in ParsedQuestions(blocks) ==> Emitted(q)
  {
    if blocks != [] {
      ParsedQuestionsEmitted(blocks[1..]);
      var head, tail := BlockQuestions(blocks[0]), ParsedQuestions(blocks[1..]);
      forall q | q in head + tail ensures Emitted(q) {
        if q in head { assert ParseBlock(blocks[0]) == Some(q); } else { assert q in tail; }
      }
    }
  }

  /** Parsing distributes over concatenation of the blocks: every block is
      parsed on its own, and the questions come out in block order. */
  lemma {:induction false} ParsedQuestionsAppend(a: seq<string>, b: seq<string>)
    ensures ParsedQuestions(a + b) == ParsedQuestions(a) + ParsedQuestions(b)
  {
    ParsedIsFlatMap(a + b);
    ParsedIsFlatMap(a);
    ParsedIsFlatMap(b);
    FlatMapAppend(BlockQuestions, a, b);
  }

  /** The lists f(x) for the elements x of xs, concatenated in order. */
  function FlatMap<T, U>(f: T -> seq<U>, xs: seq<T>): seq<U>
  {
    if xs == [] then [] else f(xs[0]) + FlatMap(f, xs[1..])
  }

  lemma {:induction false} FlatMapAppend<T, U>(f: T -> seq<U>, a: seq<T>, b: seq<T>)
    ensures FlatMap(f, a + b) == FlatMap(f, a) + FlatMap(f, b)
  {
    if a == [] {
      assert a + b == b;
    } else {
      assert (a + b)[0] == a[0] && (a + b)[1..] == a[1..] + b;
      FlatMapAppend(f, a[1..], b);
    }
  }

  /** ParsedQuestions collects the questions of each block in turn. */
  lemma {:induction false} ParsedIsFlatMap(blocks: seq<string>)
    ensures ParsedQuestions(blocks) == FlatMap(BlockQuestions, blocks)
  {
    if blocks != [] { ParsedIsFlatMap(blocks[1..]); }
  }

  /** One block on its own yields exactly the question it parses to, if any. */
  lemma ParsedQuestionsSingle(b: string)
    ensures ParsedQuestions([b]) == BlockQuestions(b)
  {
    assert [b][1..] == [];
  }

  /** A block that does not parse leaves no trace: the questions are those of
      the other blocks, in the same order. */
  lemma {:induction false} DroppedBlock(a: seq<string>, b: string, c: seq<string>)
    requires ParseBlock(b).None?
    ensures ParsedQuestions(a + [b] + c) == ParsedQuestions(a + c)
  {
    ParsedQuestionsAppend(a + [b], c);
    ParsedQuestionsAppend(a, [b]);
    ParsedQuestionsAppend(a, c);
    ParsedQuestionsSingle(b);
  }

  /** When every block parses, there is one question per block, in order. */
  lemma {:induction false} AllBlocksParse(blocks: seq<string>)
    requires forall i :: 0 <= i < |blocks| ==> ParseBlock(blocks[i]).Some?
    ensures |ParsedQuestions(blocks)| == |blocks|
    ensures forall i :: 0 <= i < |blocks| ==> ParsedQuestions(blocks)[i] == ParseBlock(blocks[i]).value
  {
    if blocks != [] {
      var rest := blocks[1..];
      assert forall i :: 0 <= i < |rest| ==> rest[i] == blocks[i + 1];
      AllBlocksParse(rest);
      var qs := ParsedQuestions(blocks);
      assert qs == [ParseBlock(blocks[0]).value] + ParsedQuestions(rest);
      forall i | 0 <= i < |blocks| ensures qs[i] == ParseBlock(blocks[i]).value {
        if i > 0 { assert qs[i] == ParsedQuestions(rest)[i - 1]; }
      }
    }
  }

  /** The loop step of ParseQuestions: one more block adds its question. */
  lemma ParsedQuestionsStep(blocks: seq<string>, i: nat)
    requires i < |blocks|
    ensures ParsedQuestions(blocks[..i + 1]) == ParsedQuestions(blocks[..i]) + BlockQuestions(blocks[i])
  {
    assert blocks[..i + 1] == blocks[..i] + [blocks[i]];
    ParsedQuestionsAppend(blocks[..i], [blocks[i]]);
    ParsedQuestionsSingle(blocks[i]);
  }

  /** `parseQuestions`: split the text into blocks and collect, in a loop,
      the question of every block that has one. Malformed blocks are
      skipped; nothing is raised. */
  method ParseQuestions(questionsText: string) returns (questions: seq<MCQuestion>)
    ensures questions == ParsedQuestions(Blocks(questionsText))
    ensures |questions| <= |Blocks(questionsText)|
    ensures forall q :: q in questions ==> Emitted(q)
  {
    var blocks := Blocks(questionsText);
    questions := [];
    for i := 0 to |blocks|
      invariant questions == ParsedQuestions(blocks[..i])
    {
      // The body of the per-block `try`: a question, or nothing to add.
      var question := ParseBlock(blocks[i]);
      if question.Some? {
        questions := questions + [question.value];
      }
      ParsedQuestionsStep(blocks, i);
    }
    assert blocks[..|blocks|] == blocks;
    ParsedQuestionsEmitted(blocks);
  }

  // ---------------------------------------------------------------------
  // Scoring.
  // ---------------------------------------------------------------------

  /** Kotlin's `selectedAnswer == correctAnswer` on a `String?`: a missing
      selection equals no answer. */
  predicate IsAnsweredCorrectly(q: MCQuestion)
  {
    q.selectedAnswer == Some(q.correctAnswer)
  }

  /** The indices of the correctly answered questions. */
  ghost function CorrectIndices(qs: seq<MCQuestion>): set<nat>
  {
    set i: nat | i < |qs| && IsAnsweredCorrectly(qs[i])
  }

  /** `calculateScore`: the number of correctly answered questions. */
  function CalculateScore(qs: seq<MCQuestion>): (score: nat)
    ensures score <= |qs|
    ensures score == |qs| <==> forall i :: 0 <= i < |qs| ==> IsAnsweredCorrectly(qs[i])
    ensures score == 0 <==> forall i :: 0 <= i < |qs| ==> !IsAnsweredCorrectly(qs[i])
  {
    if qs == [] then 0
    else
      var rest := CalculateScore(qs[..|qs| - 1]);
      assert forall i :: 0 <= i < |qs| - 1 ==> qs[..|qs| - 1][i] == qs[i];
      rest + if IsAnsweredCorrectly(qs[|qs| - 1]) then 1 else 0
  }

  /** The score is the size of the set of correctly answered indices. */
  lemma {:induction false} ScoreCountsCorrect(qs: seq<MCQuestion>)
    ensures CalculateScore(qs) == |CorrectIndices(qs)|
  {
    if qs != [] {
      var init := qs[..|qs| - 1];
      ScoreCountsCorrect(init);
      var last := |qs| - 1;
      assert forall i :: 0 <= i < |init| ==> init[i] == qs[i];
      if IsAnsweredCorrectly(qs[last]) {
        assert CorrectIndices(qs) == CorrectIndices(init) + {last};
      } else {
        assert CorrectIndices(qs) == CorrectIndices(init);
      }
    }
  }

  /** `isAllQuestionsAnswered`: no question is left without a selection
      (vacuously true of an empty list). */
  predicate IsAllQuestionsAnswered(qs: seq<MCQuestion>): (all: bool)
    ensures all <==> AnsweredCount(qs) == |qs|
  {
    AllAnsweredIffCountFull(qs);
    forall i :: 0 <= i < |qs| ==> qs[i].selectedAnswer.Some?
  }

  /** The "N answered" counter shown above the card. */
  function AnsweredCount(qs: seq<MCQuestion>): (n: nat)
    ensures n <= |qs|
  {
    if qs == [] then 0
    else AnsweredCount(qs[..|qs| - 1]) + if qs[|qs| - 1].selectedAnswer.Some? then 1 else 0
  }

  /** All questions are answered exactly when the counter reaches the total. */
  lemma {:induction false} AllAnsweredIffCountFull(qs: seq<MCQuestion>)
    ensures (forall i :: 0 <= i < |qs| ==> qs[i].selectedAnswer.Some?) <==> AnsweredCount(qs) == |qs|
  {
    if qs != [] {
      var init := qs[..|qs| - 1];
      AllAnsweredIffCountFull(init);
      assert forall i :: 0 <= i < |init| ==> init[i] == qs[i];
    }
  }

  /** A correct answer presupposes an answer: the score never exceeds the
      number of answered questions. */
  lemma {:induction false} ScoreAtMostAnswered(qs: seq<MCQuestion>)
    ensures CalculateScore(qs) <= AnsweredCount(qs)
  {
    if qs != [] {
      var init := qs[..|qs| - 1];
      ScoreAtMostAnswered(init);
    }
  }

  /** The letter the screen records for the option at `index`:
      `('A' + index).toString()`. */
  function OptionLetter(index: nat): (letter: string)
    requires index < 0xD800 - 'A' as int
    ensures |letter| == 1 && letter[0] as int == 'A' as int + index
  {
    [('A' as int + index) as char]
  }

  /** A lower-case answer letter, which the `(?i)` answer pattern accepts,
      is never equal to the letter of any of the first 32 options, so a
      question whose answer was written in lower case cannot be scored as
      correct through them. */
  lemma LowerCaseAnswerUnreachable(q: MCQuestion, index: nat)
    requires |q.correctAnswer| == 1 && 'a' <= q.correctAnswer[0] <= 'd'
    requires index < |q.options| && index < 32
    ensures !IsAnsweredCorrectly(q.(selectedAnswer := Some(OptionLetter(index))))
  {
    var letter := OptionLetter(index);
    assert letter[0] != q.correctAnswer[0];
  }

  /** An upper-case answer letter is reached by exactly one option. */
  lemma UpperCaseAnswerReachable(q: MCQuestion, index: nat)
    requires |q.correctAnswer| == 1 && 'A' <= q.correctAnswer[0] <= 'D'
    requires index < |q.options|
    requires |q.options| < 0xD800 - 'A' as int
    ensures IsAnsweredCorrectly(q.(selectedAnswer := Some(OptionLetter(index))))
            <==> index == q.correctAnswer[0] as int - 'A' as int
  {
    var letter := OptionLetter(index);
    if index == q.correctAnswer[0] as int - 'A' as int {
      assert letter == q.correctAnswer;
    } else {
      assert letter[0] != q.correctAnswer[0];
    }
  }

  /** The record stored for one question when results are saved. */
  function ToQuestionResult(q: MCQuestion): (r: QuestionResult)
    ensures r.isCorrect <==> IsAnsweredCorrectly(q)
    ensures r.selectedAnswer == if q.selectedAnswer.Some? then q.selectedAnswer.value else ""
    ensures r.question == q.question && r.correctAnswer == q.correctAnswer && r.options == q.options
  {
    QuestionResult(
      q.question,
      match q.selectedAnswer case Some(a) => a case None => "",
      q.correctAnswer,
      q.selectedAnswer == Some(q.correctAnswer),
      q.options)
  }

  /** `questions.map { ... QuestionResult(...) }`. */
  function ToQuestionResults(qs: seq<MCQuestion>): (rs: seq<QuestionResult>)
    ensures |rs| == |qs|
    ensures forall i :: 0 <= i < |qs| ==> rs[i] == ToQuestionResult(qs[i])
  {
    seq(|qs|, i requires 0 <= i < |qs| => ToQuestionResult(qs[i]))
  }

  /** How many stored results are marked correct. */
  function CountCorrectResults(rs: seq<QuestionResult>): nat
  {
    if rs == [] then 0
    else CountCorrectResults(rs[..|rs| - 1]) + if rs[|rs| - 1].isCorrect then 1 else 0
  }

  /** The stored results mark as correct exactly as many questions as the
      score counts. */
  lemma {:induction false} ResultsAgreeWithScore(qs: seq<MCQuestion>)
    ensures CountCorrectResults(ToQuestionResults(qs)) == CalculateScore(qs)
  {
    if qs != [] {
      var init := qs[..|qs| - 1];
      ResultsAgreeWithScore(init);
      assert ToQuestionResults(qs)[..|qs| - 1] == ToQuestionResults(init);
    }
  }

  /** Every selection cleared, as the retake handler does. */
  function ClearSelections(qs: seq<MCQuestion>): (r: seq<MCQuestion>)
    ensures |r| == |qs|
    ensures forall i :: 0 <= i < |qs| ==> r[i] == qs[i].(selectedAnswer := None)
  {
    seq(|qs|, i requires 0 <= i < |qs| => qs[i].(selectedAnswer := None))
  }

  /** After a retake the score is zero and, unless there are no questions,
      the quiz is not fully answered. */
  lemma RetakeResetsProgress(qs: seq<MCQuestion>)
    ensures CalculateScore(ClearSelections(qs)) == 0
    ensures AnsweredCount(ClearSelections(qs)) == 0
    ensures qs != [] ==> !IsAllQuestionsAnswered(ClearSelections(qs))
  {
    var cleared := ClearSelections(qs);
    AllAnsweredIffCountFull(cleared);
    NothingAnswered(cleared);
  }

  lemma {:induction false} NothingAnswered(qs: seq<MCQuestion>)
    requires forall i :: 0 <= i < |qs| ==> qs[i].selectedAnswer.None?
    ensures AnsweredCount(qs) == 0
  {
    if qs != [] {
      NothingAnswered(qs[..|qs| - 1]);
    }
  }

  /** The index after the next-question step: one further, but never past
      the last question. */
  function NextIndex(index: int, size: nat): (r: int)
    ensures 0 <= index < size ==> 0 <= r < size
    ensures r == index || r == index + 1
    ensures r == index + 1 <==> index < size - 1
  {
    if index < size - 1 then index + 1 else index
  }

  /** The state of the swipeable assessment screen. */
  class AssessmentScreen {
    var questions: seq<MCQuestion>
    var currentScore: int
    var hasSubmitted: bool
    var showResults: bool
    var currentQuestionIndex: int

    /** The index stays on a question (or at 0 for an empty quiz), the
        score is within bounds, and the question texts, options and answers
        are those the parser emitted. */
    ghost predicate Valid()
      reads this
    {
      && (forall q :: q in questions ==> q.(selectedAnswer := None) in Parsed)
      && 0 <= currentQuestionIndex
      && (questions != [] ==> currentQuestionIndex < |questions|)
      && (questions == [] ==> currentQuestionIndex == 0)
      && 0 <= currentScore <= |questions|
    }

    /** The questions as parsed, before any answer was picked. */
    ghost var Parsed: seq<MCQuestion>

    constructor (questionsText: string)
      ensures Valid()
      ensures questions == ParsedQuestions(Blocks(questionsText)) && Parsed == questions
      ensures currentScore == 0 && currentQuestionIndex == 0
      ensures !hasSubmitted && !showResults
    {
      var parsed := ParseQuestions(questionsText);
      questions := parsed;
      Parsed := parsed;
      currentScore := 0;
      hasSubmitted := false;
      showResults := false;
      currentQuestionIndex := 0;
    }

    /** Picking the option at `index` on the current card records its letter
        as the card's selected answer. The card and its options exist only
        while the index is on a question. */
    method SelectOption(index: nat)
      requires Valid()
      requires currentQuestionIndex < |questions|
      requires index < |questions[currentQuestionIndex].options|
      requires |questions[currentQuestionIndex].options| < 0xD800 - 'A' as int
      modifies this
      ensures Valid()
      ensures questions == old(questions)[old(currentQuestionIndex) :=
                old(questions)[old(currentQuestionIndex)].(selectedAnswer := Some(OptionLetter(index)))]
      ensures currentScore == old(currentScore) && currentQuestionIndex == old(currentQuestionIndex)
      ensures hasSubmitted == old(hasSubmitted) && showResults == old(showResults)
      ensures Parsed == old(Parsed)
    {
      var q := questions[currentQuestionIndex];
      questions := questions[currentQuestionIndex := q.(selectedAnswer := Some(OptionLetter(index)))];
      assert questions[currentQuestionIndex].(selectedAnswer := None) == q.(selectedAnswer := None);
    }

    /** The step taken once a card has swiped away: move to the next
        question unless this is the last one. Both ways of starting a swipe
        (the "Next" button and a long enough drag) need the current question
        to have a selection. */
    method Advance()
      requires Valid()
      requires 0 <= currentQuestionIndex < |questions| ==> questions[currentQuestionIndex].selectedAnswer.Some?
      modifies this
      ensures Valid()
      ensures currentQuestionIndex == NextIndex(old(currentQuestionIndex), |questions|)
      ensures questions == old(questions) && currentScore == old(currentScore)
      ensures hasSubmitted == old(hasSubmitted) && showResults == old(showResults)
      ensures Parsed == old(Parsed)
    {
      if currentQuestionIndex < |questions| - 1 {
        currentQuestionIndex := currentQuestionIndex + 1;
      }
    }

    /** The submit button, enabled only once every question has a
        selection: compute the score and show the results. */
    method Submit()
      requires Valid()
      requires IsAllQuestionsAnswered(questions)
      modifies this
      ensures Valid()
      ensures AnsweredCount(questions) == |questions|
      ensures currentScore == CalculateScore(questions)
      ensures currentScore == CountCorrectResults(ToQuestionResults(questions))
      ensures hasSubmitted && showResults
      ensures questions == old(questions) && currentQuestionIndex == old(currentQuestionIndex)
      ensures Parsed == old(Parsed)
    {
      currentScore := CalculateScore(questions);
      hasSubmitted := true;
      showResults := true;
      ResultsAgreeWithScore(questions);
    }

    /** The retake button: clear every selection, the score and the index. */
    method Retake()
      requires Valid()
      modifies this
      ensures Valid()
      ensures questions == ClearSelections(old(questions))
      ensures currentScore == 0 && currentQuestionIndex == 0
      ensures !hasSubmitted && !showResults
      ensures CalculateScore(questions) == 0
      ensures old(questions) != [] ==> !IsAllQuestionsAnswered(questions)
      ensures Parsed == old(Parsed)
    {
      var old_questions := questions;
      questions := ClearSelections(questions);
      currentScore := 0;
      hasSubmitted := false;
      showResults := false;
      currentQuestionIndex := 0;
      RetakeResetsProgress(old_questions);
      assert forall q :: q in questions ==> q.(selectedAnswer := None) in Parsed by {
        forall q | q in questions ensures q.(selectedAnswer := None) in Parsed {
          var i :| 0 <= i < |questions| && questions[i] == q;
          assert old_questions[i] in old_questions;
        }
      }
    }

    /** What is handed to the store when results are shown: the score, the
        number of questions and one record per question. */
    function ResultToSave(): (r: (int, int, seq<QuestionResult>))
      reads this
      ensures r.1 == |questions| && r.2 == ToQuestionResults(questions)
      ensures r.0 == currentScore
      ensures CountCorrectResults(r.2) == CalculateScore(questions)
    {
      ResultsAgreeWithScore(questions);
      (currentScore, |questions|, ToQuestionResults(questions))
    }
  }
}
