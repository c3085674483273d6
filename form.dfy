/** The profile form: the bookkeeping of the selected skills, interests
    and end goals, the text the form submits, and the splitting of the
    generative model's reply into a course section and a question
    section. */
module Form {
  import opened Text

  // ---------------------------------------------------------------------
  // Splitting a reply into its two sections.
  // ---------------------------------------------------------------------

  const CourseHeader: string := "course suggestions"
  const QuestionHeader: string := "skill assessment questions"
  const SectionStop: string := "skill assessment"

  /** Where `$` of a java.util.regex pattern without MULTILINE matches: at
      the end of input, before a final "\r\n", or before one final line
      terminator ("\n" not preceded by "\r", "\r", U+0085, U+2028, U+2029). */
  predicate DollarAt(s: string, e: nat)
    requires e <= |s|
  {
    || e == |s|
    || (e == |s| - 1
        && ((s[e] == '\n' && !(e > 0 && s[e - 1] == '\r'))
            || s[e] == '\r' || s[e] == '\U{85}' || s[e] == '\U{2028}' || s[e] == '\U{2029}'))
    || (e == |s| - 2 && s[e] == '\r' && s[e + 1] == '\n')
  }

  /** The lookahead `(?=skill assessment|$)` succeeds at e. */
  predicate SectionStopsAt(s: string, e: nat)
    requires e <= |s|
  {
    MatchesIgnoreCaseAt(s, e, SectionStop) || DollarAt(s, e)
  }

  /** Where a lazy `(.+?)` followed by that lookahead stops: the first
      position at or after e where the lookahead succeeds. */
  function SectionEnd(s: string, e: nat): (r: nat)
    requires e <= |s|
    decreases |s| - e
    ensures e <= r <= |s| && SectionStopsAt(s, r)
    ensures forall k :: e <= k < r ==> !SectionStopsAt(s, k)
  {
    if SectionStopsAt(s, e) then e else SectionEnd(s, e + 1)
  }

  /** Where a section's group starts after a header ending at h: past the
      optional colon when something follows the colon, otherwise at h (the
      colon, if any, then opens the group). */
  function ColonSkip(s: string, h: nat): (g: nat)
    requires h < |s|
    ensures g == h || g == h + 1
    ensures g == h + 1 <==> s[h] == ':' && h + 1 < |s|
  {
    if s[h] == ':' && h + 1 < |s| then h + 1 else h
  }

  /** The group of `(?i)course suggestions:?(.+?)(?=skill assessment|$)`
      (dot matching line terminators) for a header found at p, as its
      bounds: the colon is taken when something follows it, otherwise it
      becomes the group's first character; with nothing after the header
      the match fails at p. */
  function CourseGroupAt(s: string, p: nat): (r: Option<(nat, nat)>)
    requires MatchesIgnoreCaseAt(s, p, CourseHeader)
    ensures r.Some? <==> p + |CourseHeader| < |s|
    ensures r.Some? ==> p + |CourseHeader| <= r.value.0 < r.value.1 <= |s|
    ensures r.Some? ==> r.value.0 == ColonSkip(s, p + |CourseHeader|)
                        && r.value.1 == SectionEnd(s, r.value.0 + 1)
  {
    var h := p + |CourseHeader|;
    if h < |s| && s[h] == ':' && h + 1 < |s| then Some((h + 1, SectionEnd(s, h + 2)))
    else if h < |s| then Some((h, SectionEnd(s, h + 1)))
    else None
  }

  /** Regex.find for the course pattern, from position p on: the start of
      the leftmost match. */
  function CourseMatchFrom(s: string, p: nat): (r: Option<nat>)
    decreases |s| + 1 - p
    ensures r.Some? ==> p <= r.value && MatchesIgnoreCaseAt(s, r.value, CourseHeader)
                        && CourseGroupAt(s, r.value).Some?
    ensures r.Some? ==> forall k :: p <= k < r.value ==> !MatchesIgnoreCaseAt(s, k, CourseHeader)
    ensures r.None? ==> forall k :: p <= k && MatchesIgnoreCaseAt(s, k, CourseHeader) ==>
                          k + |CourseHeader| == |s|
  {
    if p + |CourseHeader| > |s| then None
    else if MatchesIgnoreCaseAt(s, p, CourseHeader) && p + |CourseHeader| < |s| then Some(p)
    else CourseMatchFrom(s, p + 1)
  }

  /** The group of `(?i)skill assessment questions:?(.+)$` for a header found
      at q: everything after the header and a colon, or the colon alone when
      nothing follows it; with nothing after the header the match fails. */
  function QuestionGroupAt(s: string, q: nat): (r: Option<nat>)
    requires MatchesIgnoreCaseAt(s, q, QuestionHeader)
    ensures r.Some? <==> q + |QuestionHeader| < |s|
    ensures r.Some? ==> q + |QuestionHeader| <= r.value < |s|
    ensures r.Some? ==> r.value == ColonSkip(s, q + |QuestionHeader|)
  {
    var h := q + |QuestionHeader|;
    if h < |s| && s[h] == ':' && h + 1 < |s| then Some(h + 1)
    else if h < |s| then Some(h)
    else None
  }

  /** Regex.find for the question pattern, from position q on. */
  function QuestionMatchFrom(s: string, q: nat): (r: Option<nat>)
    decreases |s| + 1 - q
    ensures r.Some? ==> q <= r.value && MatchesIgnoreCaseAt(s, r.value, QuestionHeader)
                        && QuestionGroupAt(s, r.value).Some?
    ensures r.Some? ==> forall k :: q <= k < r.value ==> !MatchesIgnoreCaseAt(s, k, QuestionHeader)
    ensures r.None? ==> forall k :: q <= k && MatchesIgnoreCaseAt(s, k, QuestionHeader) ==>
                          k + |QuestionHeader| == |s|
  {
    if q + |QuestionHeader| > |s| then None
    else if MatchesIgnoreCaseAt(s, q, QuestionHeader) && q + |QuestionHeader| < |s| then Some(q)
    else QuestionMatchFrom(s, q + 1)
  }

  /** The course section: the trimmed group of the leftmost course match,
      or the whole reply when there is none. */
  function CourseSectionText(response: string): (c: string)
    ensures CourseMatchFrom(response, 0).None? ==> c == response
    ensures CourseMatchFrom(response, 0).Some? ==>
              c == [] || (!IsWhitespace(c[0]) && !IsWhitespace(c[|c| - 1]))
  {
    match CourseMatchFrom(response, 0)
    case Some(p) =>
      var g := CourseGroupAt(response, p).value;
      Trim(response[g.0..g.1])
    case None => response
  }

  /** The question section: the trimmed group of the leftmost question
      match, or the empty text when there is none. */
  function QuestionSectionText(response: string): (q: string)
    ensures QuestionMatchFrom(response, 0).None? ==> q == []
    ensures q == [] || (!IsWhitespace(q[0]) && !IsWhitespace(q[|q| - 1]))
  {
    match QuestionMatchFrom(response, 0)
    case Some(q) => Trim(response[QuestionGroupAt(response, q).value..])
    case None => []
  }

  /** `parseGeminiResponse` of the form: the trimmed course section, or the
      whole reply when there is none; and the trimmed question section, or
      the empty text when there is none. */
  function SplitSections(response: string): (r: (string, string))
    ensures CourseMatchFrom(response, 0).None? ==> r.0 == response
    ensures QuestionMatchFrom(response, 0).None? ==> r.1 == []
    ensures CourseMatchFrom(response, 0).Some? ==>
              r.0 == [] || (!IsWhitespace(r.0[0]) && !IsWhitespace(r.0[|r.0| - 1]))
  {
    (CourseSectionText(response), QuestionSectionText(response))
  }

  /** With a course header matched at p, the first section is the text
      after the header and its optional colon, up to the first place after
      the group's first character where "skill assessment" or `$` matches,
      trimmed (SectionEnd, and NoStopInSection for what that excludes). */
  lemma CourseSection(response: string)
    ensures CourseMatchFrom(response, 0).Some? ==>
              var g := ColonSkip(response, CourseMatchFrom(response, 0).value + |CourseHeader|);
              SplitSections(response).0 == Trim(response[g..SectionEnd(response, g + 1)])
  {
    match CourseMatchFrom(response, 0)
    case Some(p) =>
      var grp := CourseGroupAt(response, p).value;
      assert CourseSectionText(response) == Trim(response[grp.0..grp.1]);
    case None =>
  }

  /** The lazy group stops at the first "skill assessment": none starts
      between where the search begins and where it stops. */
  lemma NoStopInSection(s: string, e: nat)
    requires e <= |s|
    ensures NoStopBetween(s, e, SectionEnd(s, e))
  {
    forall k | e <= k < SectionEnd(s, e) ensures !MatchesIgnoreCaseAt(s, k, SectionStop) {
      assert !SectionStopsAt(s, k);
    }
  }

  /** No "skill assessment" starts in s at a position in [lo, hi). */
  predicate NoStopBetween(s: string, lo: nat, hi: nat)
  {
    forall k :: lo <= k < hi ==> !MatchesIgnoreCaseAt(s, k, SectionStop)
  }

  /** With a question header matched at q, the second section is everything
      after the header and its optional colon, to the end, trimmed. */
  lemma QuestionSection(response: string)
    ensures QuestionMatchFrom(response, 0).Some? ==>
              var g := ColonSkip(response, QuestionMatchFrom(response, 0).value + |QuestionHeader|);
              SplitSections(response).1 == Trim(response[g..])
  {
    match QuestionMatchFrom(response, 0)
    case Some(q) =>
      assert QuestionSectionText(response) == Trim(response[QuestionGroupAt(response, q).value..]);
    case None =>
  }

  /** Without a course header anywhere, the first section is the reply
      itself; without a question header, the second is empty. */
  lemma MissingHeaders(response: string)
    ensures (forall k :: !MatchesIgnoreCaseAt(response, k, CourseHeader)) ==>
              SplitSections(response).0 == response
    ensures (forall k :: !MatchesIgnoreCaseAt(response, k, QuestionHeader)) ==>
              SplitSections(response).1 == []
  {
  }

  /** The headings the prompt asks the reply to use. */
  const CourseHeading: string := "Course Suggestions:"
  const QuestionHeading: string := "Skill Assessment Questions:"

  /** The course heading folds to the course pattern's literal. */
  lemma CourseHeadingFolds()
    ensures |CourseHeading| == 19 && CourseHeading[18] == ':'
    ensures forall k :: 0 <= k < 18 ==> LowerAscii(CourseHeading[k]) == CourseHeader[k]
  {
  }

  /** The question heading folds to the question pattern's literal, which
      opens with the stop literal. */
  lemma QuestionHeadingFolds()
    ensures |QuestionHeading| == 27 && QuestionHeading[26] == ':'
    ensures forall k :: 0 <= k < 26 ==> LowerAscii(QuestionHeading[k]) == QuestionHeader[k]
    ensures forall k :: 0 <= k < 16 ==> QuestionHeader[k] == SectionStop[k]
  {
  }

  /** "sk" occurs in neither the course heading nor, after its start, the
      stop literal: a stop cannot overlap the course heading or start
      part-way before the question heading. */
  lemma NoSkInside()
    ensures |CourseHeading| == 19 && CourseHeading[18] == ':'
    ensures forall k :: 0 <= k < 18 ==>
              !(LowerAscii(CourseHeading[k]) == 's' && LowerAscii(CourseHeading[k + 1]) == 'k')
    ensures forall d :: 1 <= d < 15 && SectionStop[d] == 's' ==> SectionStop[d + 1] != 'k'
    ensures SectionStop[0] == 's' && SectionStop[1] == 'k' && SectionStop[15] != 's'
    ensures LowerAscii(QuestionHeading[0]) == 's' && LowerAscii(QuestionHeading[1]) == 'k'
  {
  }

  /** The text t sits at position i of s and folds to lit. */
  lemma MatchCopied(s: string, i: nat, t: string, lit: string)
    requires i + |t| <= |s| && |lit| <= |t|
    requires forall k :: 0 <= k < |t| ==> s[i + k] == t[k]
    requires forall k :: 0 <= k < |lit| ==> LowerAscii(t[k]) == lit[k]
    ensures MatchesIgnoreCaseAt(s, i, lit)
  {
  }

  /** A reply laid out as the prompt asks, "Course Suggestions:", the
      courses, "Skill Assessment Questions:", the questions, splits back into
      the two bodies, trimmed, as long as both bodies are non-empty and the
      course body does not itself mention "skill assessment". */
  lemma SectionsRoundTrip(courses: string, questions: string)
    requires |courses| >= 1 && |questions| >= 1
    requires forall k :: !MatchesIgnoreCaseAt(courses, k, SectionStop)
    ensures SplitSections(CourseHeading + courses + QuestionHeading + questions)
            == (Trim(courses), Trim(questions))
  {
    var s := CourseHeading + courses + QuestionHeading + questions;
    var m := 19 + |courses|;
    ReplyLaidOut(courses, questions, s, m);
    NoStopBefore(s, courses);
    CourseSectionOf(s, courses);
    QuestionSectionOf(s, courses);
  }

  /** The reply written from two bodies lays them out by position. */
  lemma ReplyLaidOut(courses: string, questions: string, s: string, m: nat)
    requires s == CourseHeading + courses + QuestionHeading + questions
    requires m == 19 + |courses| && |questions| >= 1
    ensures LaidOut(s, courses) && s[19..m] == courses && s[m + 27..] == questions
  {
    CourseHeadingFolds();
    QuestionHeadingFolds();
    assert forall k :: 0 <= k < 19 ==> s[k] == CourseHeading[k];
    assert forall k :: 0 <= k < |courses| ==> s[19 + k] == courses[k];
    assert forall k :: 0 <= k < 27 ==> s[m + k] == QuestionHeading[k];
    assert s[19..m] == courses;
    assert s[m + 27..] == questions;
  }

  /** The layout of a reply that follows the prompt, by position. */
  predicate LaidOut(s: string, courses: string)
  {
    && |s| > 19 + |courses| + 27
    && (forall k :: 0 <= k < 19 ==> s[k] == CourseHeading[k])
    && (forall k :: 0 <= k < |courses| ==> s[19 + k] == courses[k])
    && (forall k :: 0 <= k < 27 ==> s[19 + |courses| + k] == QuestionHeading[k])
  }

  /** In such a reply no "skill assessment" starts before the question
      heading. */
  lemma NoStopBefore(s: string, courses: string)
    requires LaidOut(s, courses)
    requires forall k :: !MatchesIgnoreCaseAt(courses, k, SectionStop)
    ensures forall k :: 0 <= k < 19 + |courses| ==> !MatchesIgnoreCaseAt(s, k, SectionStop)
  {
    NoSkInside();
    var m := 19 + |courses|;
    assert s[m] == QuestionHeading[0] && s[m + 1] == QuestionHeading[1];
    forall k | 0 <= k < m ensures !MatchesIgnoreCaseAt(s, k, SectionStop) {
      if k < 19 {
        // The course heading never holds "sk".
        assert s[k] == CourseHeading[k];
        if k < 18 && LowerAscii(s[k]) == 's' {
          assert s[k + 1] == CourseHeading[k + 1];
          assert LowerAscii(s[k + 1]) != SectionStop[1];
        } else {
          assert LowerAscii(s[k]) != SectionStop[0];
        }
      } else if k + |SectionStop| <= m {
        MatchInside(s, courses, k - 19);
      } else {
        // A match running into the question heading would need a border
        // of "skill assessment" that it does not have.
        var d := m - k;
        if SectionStop[d] == 's' {
          assert LowerAscii(s[k + d + 1]) != SectionStop[d + 1];
        } else {
          assert LowerAscii(s[k + d]) != SectionStop[d];
        }
      }
    }
  }

  /** A match inside the course body of such a reply is a match in the body. */
  lemma MatchInside(s: string, courses: string, i: nat)
    requires LaidOut(s, courses) && i + |SectionStop| <= |courses|
    ensures MatchesIgnoreCaseAt(s, 19 + i, SectionStop) ==> MatchesIgnoreCaseAt(courses, i, SectionStop)
  {
    if MatchesIgnoreCaseAt(s, 19 + i, SectionStop) {
      forall j | 0 <= j < |SectionStop| ensures LowerAscii(courses[i + j]) == SectionStop[j] {
        assert courses[i + j] == s[19 + i + j];
      }
    }
  }

  /** The course section of such a reply is the course body. */
  lemma CourseSectionOf(s: string, courses: string)
    requires LaidOut(s, courses) && |courses| >= 1
    requires forall k :: 0 <= k < 19 + |courses| ==> !MatchesIgnoreCaseAt(s, k, SectionStop)
    ensures CourseMatchFrom(s, 0) == Some(0)
    ensures CourseGroupAt(s, 0) == Some((19, 19 + |courses|))
  {
    CourseHeadingFolds();
    QuestionHeadingFolds();
    var m := 19 + |courses|;
    MatchCopied(s, 0, CourseHeading, CourseHeader);
    assert s[18] == ':';
    MatchCopied(s, m, QuestionHeading, SectionStop);
    assert SectionStopsAt(s, m);
    var e := SectionEnd(s, 20);
  }

  /** The question section of such a reply starts right after the question
      heading and its colon. */
  lemma QuestionSectionOf(s: string, courses: string)
    requires LaidOut(s, courses)
    requires forall k :: 0 <= k < 19 + |courses| ==> !MatchesIgnoreCaseAt(s, k, SectionStop)
    ensures QuestionMatchFrom(s, 0) == Some(19 + |courses|)
    ensures QuestionGroupAt(s, 19 + |courses|) == Some(19 + |courses| + 27)
  {
    QuestionHeadingFolds();
    var m := 19 + |courses|;
    MatchCopied(s, m, QuestionHeading, QuestionHeader);
    forall k | 0 <= k < m ensures !MatchesIgnoreCaseAt(s, k, QuestionHeader) {
      if MatchesIgnoreCaseAt(s, k, QuestionHeader) {
        PrefixMatch(s, k, QuestionHeader, SectionStop);
      }
    }
    assert s[m + 26] == ':';
  }

  /** A match of a literal is a match of each of its prefixes. */
  lemma PrefixMatch(s: string, i: nat, lit: string, prefix: string)
    requires MatchesIgnoreCaseAt(s, i, lit)
    requires |prefix| <= |lit| && forall k :: 0 <= k < |prefix| ==> prefix[k] == lit[k]
    ensures MatchesIgnoreCaseAt(s, i, prefix)
  {
  }

  // ---------------------------------------------------------------------
  // Skills and their serialised form.
  // ---------------------------------------------------------------------

  datatype SkillLevel = BEGINNER | INTERMEDIATE | EXPERT

  /** A selected skill; `isCustom` marks one typed in by the user. */
  datatype Skill = Skill(name: string, level: SkillLevel, isCustom: bool)

  datatype Interest = Interest(name: string)

  datatype EndGoal = EndGoal(name: string)

  /** The skills offered in the drop-down; "Other" opens the custom field. */
  const PredefinedSkills: seq<string> :=
    ["Kotlin", "Java", "Android", "Jetpack Compose", "Flutter", "JavaScript",
     "Python", "Swift", "React Native", "Other"]

  const InterestOptions: seq<Interest> :=
    [Interest("Mobile Development"), Interest("Web Development"), Interest("Backend Development"),
     Interest("DevOps"), Interest("Machine Learning"), Interest("UI/UX Design")]

  const EndGoalOptions: seq<EndGoal> :=
    [EndGoal("Become a professional developer"), EndGoal("Build personal projects"),
     EndGoal("Career transition"), EndGoal("Enhance current skills"), EndGoal("Freelancing")]

  /** The enum constant's name, `level.name`. */
  function LevelName(level: SkillLevel): string
  {
    match level
    case BEGINNER => "BEGINNER"
    case INTERMEDIATE => "INTERMEDIATE"
    case EXPERT => "EXPERT"
  }

  /** `SkillLevel.valueOf`: the level with that name, if any. */
  function LevelNamed(name: string): (r: Option<SkillLevel>)
    ensures r.Some? ==> LevelName(r.value) == name
    ensures forall l :: LevelName(l) == name ==> r == Some(l)
  {
    if name == "BEGINNER" then Some(BEGINNER)
    else if name == "INTERMEDIATE" then Some(INTERMEDIATE)
    else if name == "EXPERT" then Some(EXPERT)
    else None
  }

  /** One skill as submitted: "name:LEVEL". */
  function SkillEntry(skill: Skill): string
  {
    skill.name + ":" + LevelName(skill.level)
  }

  function SkillEntries(skills: seq<Skill>): (entries: seq<string>)
    ensures |entries| == |skills|
    ensures forall i :: 0 <= i < |skills| ==> entries[i] == SkillEntry(skills[i])
  {
    seq(|skills|, i requires 0 <= i < |skills| => SkillEntry(skills[i]))
  }

  /** The skills text the form submits: the entries joined by ", ". */
  function FormatSkills(skills: seq<Skill>): (text: string)
    ensures text == [] <==> skills == []
    ensures (forall i :: 0 <= i < |skills| ==> ',' !in skills[i].name && ':' !in skills[i].name) ==>
              ReadSkills(text)
              == seq(|skills|, i requires 0 <= i < |skills| => Some((skills[i].name, skills[i].level)))
  {
    EntriesRoundTrip(skills);
    Join(SkillEntries(skills), ", ")
  }

  /** Kotlin's split(sep) for a non-empty separator: the pieces between the
      occurrences of sep, scanning from the left. */
  function Split(s: string, sep: string): (pieces: seq<string>)
    requires sep != []
    decreases |s|
    ensures |pieces| >= 1
  {
    match IndexOf(s, sep)
    case None => [s]
    case Some(k) => [s[..k]] + Split(s[k + |sep|..], sep)
  }

  /** Reads one "name:LEVEL" entry back: the text before the first colon,
      and the level named after it. */
  function ReadSkillEntry(entry: string): Option<(string, SkillLevel)>
  {
    match IndexOf(entry, ":")
    case None => None
    case Some(k) =>
      match LevelNamed(entry[k + 1..])
      case None => None
      case Some(level) => Some((entry[..k], level))
  }

  /** Reads a submitted skills text back into names and levels (the
      reference inverse of FormatSkills; the app itself never reads it). */
  function ReadSkills(text: string): seq<Option<(string, SkillLevel)>>
  {
    if text == [] then []
    else
      var entries := Split(text, ", ");
      seq(|entries|, i requires 0 <= i < |entries| => ReadSkillEntry(entries[i]))
  }

  /** A text without the character c contains no occurrence of a separator
      that starts with c. */
  lemma NoOccurrence(s: string, sep: string)
    requires sep != [] && sep[0] !in s
    ensures forall k: nat :: !OccursAt(s, sep, k)
  {
    forall k: nat | k + |sep| <= |s| ensures !OccursAt(s, sep, k) {
      assert s[k..k + |sep|][0] == s[k];
    }
  }

  /** The first occurrence of sep in head + sep + tail is right after head
      when head lacks sep's first character. */
  lemma FirstOccurrenceAfter(head: string, sep: string, tail: string)
    requires sep != [] && sep[0] !in head
    ensures IndexOf(head + sep + tail, sep) == Some(|head|)
  {
    var t := head + sep + tail;
    assert t[|head|..|head| + |sep|] == sep;
    assert OccursAt(t, sep, |head|);
    forall k: nat | k < |head| ensures !OccursAt(t, sep, k) {
      assert t[k] == head[k];
      if k + |sep| <= |t| {
        assert t[k..k + |sep|][0] == t[k];
      }
    }
  }

  /** Splitting a joined list gives the list back when no part holds the
      separator's first character. */
  lemma {:induction false} SplitJoin(parts: seq<string>, sep: string)
    requires sep != [] && parts != []
    requires forall i :: 0 <= i < |parts| ==> sep[0] !in parts[i]
    ensures Split(Join(parts, sep), sep) == parts
  {
    if |parts| == 1 {
      NoOccurrence(parts[0], sep);
    } else {
      var rest := Join(parts[1..], sep);
      FirstOccurrenceAfter(parts[0], sep, rest);
      var t := parts[0] + sep + rest;
      assert t[..|parts[0]|] == parts[0];
      assert t[|parts[0]| + |sep|..] == rest;
      SplitJoin(parts[1..], sep);
    }
  }

  /** An entry reads back as its skill's name and level when the name has
      no colon. */
  lemma ReadSkillEntryOf(skill: Skill)
    requires ':' !in skill.name
    ensures ReadSkillEntry(SkillEntry(skill)) == Some((skill.name, skill.level))
  {
    var entry := SkillEntry(skill);
    assert entry == skill.name + ":" + LevelName(skill.level);
    FirstOccurrenceAfter(skill.name, ":", LevelName(skill.level));
    assert entry[|skill.name| + 1..] == LevelName(skill.level);
    assert entry[..|skill.name|] == skill.name;
  }

  /** The joined entries are empty only for no skills, and keep every
      skill's name and level, in list order, when names contain neither ','
      nor ':' (whether a skill was custom is not kept). */
  lemma EntriesRoundTrip(skills: seq<Skill>)
    ensures Join(SkillEntries(skills), ", ") == [] <==> skills == []
    ensures (forall i :: 0 <= i < |skills| ==> ',' !in skills[i].name && ':' !in skills[i].name) ==>
              ReadSkills(Join(SkillEntries(skills), ", "))
              == seq(|skills|, i requires 0 <= i < |skills| => Some((skills[i].name, skills[i].level)))
  {
    JoinedEntriesEmpty(skills);
    if forall i :: 0 <= i < |skills| ==> ',' !in skills[i].name && ':' !in skills[i].name {
      EntriesReadBack(skills);
    }
  }

  lemma JoinedEntriesEmpty(skills: seq<Skill>)
    ensures Join(SkillEntries(skills), ", ") == [] <==> skills == []
  {
    var entries := SkillEntries(skills);
    if skills != [] {
      assert StartsWith(Join(entries, ", "), entries[0]);
      assert |entries[0]| >= 1;
    }
  }

  lemma EntriesReadBack(skills: seq<Skill>)
    requires forall i :: 0 <= i < |skills| ==> ',' !in skills[i].name && ':' !in skills[i].name
    ensures ReadSkills(Join(SkillEntries(skills), ", "))
            == seq(|skills|, i requires 0 <= i < |skills| => Some((skills[i].name, skills[i].level)))
  {
    var entries := SkillEntries(skills);
    if skills != [] {
      forall i | 0 <= i < |entries| ensures ',' !in entries[i] {
        assert entries[i] == skills[i].name + ":" + LevelName(skills[i].level);
        assert ',' !in LevelName(skills[i].level);
      }
      SplitJoin(entries, ", ");
      JoinedEntriesEmpty(skills);
      forall i | 0 <= i < |skills| ensures ReadSkillEntry(entries[i]) == Some((skills[i].name, skills[i].level)) {
        ReadSkillEntryOf(skills[i]);
      }
    }
  }

  // ---------------------------------------------------------------------
  // Selections: ordered sets and filtered lists.
  // ---------------------------------------------------------------------

  predicate NoDuplicates<T(==)>(xs: seq<T>)
  {
    forall i, j :: 0 <= i < j < |xs| ==> xs[i] != xs[j]
  }

  /** `filter { it != x }`: every entry equal to x dropped, the others kept
      in order. */
  function Without<T(==,!new)>(xs: seq<T>, x: T): (r: seq<T>)
    ensures forall y :: y in r <==> y in xs && y != x
    ensures multiset(r) == multiset(xs)[x := 0]
  {
    if xs == [] then []
    else
      assert xs == [xs[0]] + xs[1..];
      if xs[0] == x then Without(xs[1..], x) else [xs[0]] + Without(xs[1..], x)
  }

  /** Removing an entry keeps the relative order of the others: filtering
      distributes over concatenation. */
  lemma {:induction false} WithoutAppend<T(!new)>(xs: seq<T>, ys: seq<T>, x: T)
    ensures Without(xs + ys, x) == Without(xs, x) + Without(ys, x)
  {
    if xs != [] {
      assert (xs + ys)[1..] == xs[1..] + ys;
      WithoutAppend(xs[1..], ys, x);
    } else {
      assert xs + ys == ys;
    }
  }

  /** Filtering leaves a duplicate-free list duplicate-free. */
  lemma {:induction false} WithoutNoDuplicates<T(!new)>(xs: seq<T>, x: T)
    requires NoDuplicates(xs)
    ensures NoDuplicates(Without(xs, x))
  {
    if xs != [] {
      assert NoDuplicates(xs[1..]);
      WithoutNoDuplicates(xs[1..], x);
      assert xs[0] !in xs[1..];
    }
  }

  /** A click on an interest or goal chip on a Kotlin set (a LinkedHashSet):
      `minus` when present, else `plus`, which appends. */
  function Toggle<T(==,!new)>(xs: seq<T>, x: T): (r: seq<T>)
    ensures x in r <==> x !in xs
    ensures forall y :: y != x ==> (y in r <==> y in xs)
  {
    if x in xs then Without(xs, x) else xs + [x]
  }

  /** A toggle keeps the selection a set. */
  lemma ToggleNoDuplicates<T(!new)>(xs: seq<T>, x: T)
    requires NoDuplicates(xs)
    ensures NoDuplicates(Toggle(xs, x))
  {
    if x in xs {
      WithoutNoDuplicates(xs, x);
    }
  }

  /** Toggling twice restores the selection as a set; when the element was
      absent, it restores the very same sequence. */
  lemma ToggleTwice<T(!new)>(xs: seq<T>, x: T)
    ensures forall y :: y in Toggle(Toggle(xs, x), x) <==> y in xs
    ensures x !in xs ==> Toggle(Toggle(xs, x), x) == xs
  {
    if x !in xs {
      WithoutAppend(xs, [x], x);
      assert Without([x], x) == [];
      WithoutAbsent(xs, x);
    }
  }

  /** Filtering out an absent element changes nothing. */
  lemma {:induction false} WithoutAbsent<T(!new)>(xs: seq<T>, x: T)
    requires x !in xs
    ensures Without(xs, x) == xs
  {
    if xs != [] {
      assert x !in xs[1..];
      WithoutAbsent(xs[1..], x);
    }
  }

  // ---------------------------------------------------------------------
  // The form's state.
  // ---------------------------------------------------------------------

  /** The state the skill selection form keeps between clicks. */
  class SkillForm {
    var selectedSkill: Option<Skill>
    var customSkillText: string
    var selectedSkills: seq<Skill>
    var isAddingCustomSkill: bool
    var userName: string
    var selectedInterests: seq<Interest>
    var selectedEndGoals: seq<EndGoal>

    /** The interests and goals are sets of offered options; a skill picked
        from the drop-down is a predefined one other than "Other"; a custom
        skill in the list has a non-blank name and the beginner level. */
    ghost predicate Valid()
      reads this
    {
      && NoDuplicates(selectedInterests) && NoDuplicates(selectedEndGoals)
      && (forall i :: i in selectedInterests ==> i in InterestOptions)
      && (forall g :: g in selectedEndGoals ==> g in EndGoalOptions)
      && (selectedSkill.Some? ==> PickedSkill(selectedSkill.value))
      && (forall s :: s in selectedSkills ==> ListedSkill(s))
    }

    constructor ()
      ensures Valid()
      ensures selectedSkill.None? && customSkillText == [] && selectedSkills == []
      ensures !isAddingCustomSkill && userName == []
      ensures selectedInterests == [] && selectedEndGoals == []
    {
      selectedSkill := None;
      customSkillText := [];
      selectedSkills := [];
      isAddingCustomSkill := false;
      userName := [];
      selectedInterests := [];
      selectedEndGoals := [];
    }

    /** A click on a drop-down entry: "Other" opens an empty custom field
        (and keeps any picked skill), any other entry is picked at the
        beginner level and closes the custom field. */
    method ChooseFromDropdown(skill: string)
      requires Valid() && skill in PredefinedSkills
      modifies this
      ensures Valid()
      ensures skill == "Other" ==> isAddingCustomSkill && customSkillText == []
                                   && selectedSkill == old(selectedSkill)
      ensures skill != "Other" ==> selectedSkill == Some(Skill(skill, BEGINNER, false))
                                   && !isAddingCustomSkill && customSkillText == old(customSkillText)
      ensures selectedSkills == old(selectedSkills) && userName == old(userName)
      ensures selectedInterests == old(selectedInterests) && selectedEndGoals == old(selectedEndGoals)
    {
      if skill == "Other" {
        isAddingCustomSkill := true;
        customSkillText := [];
      } else {
        selectedSkill := Some(Skill(skill, BEGINNER, false));
        isAddingCustomSkill := false;
      }
    }

    /** Typing in the skill field changes the text only while it is the
        custom field. */
    method EditSkillText(text: string)
      requires Valid()
      modifies this
      ensures Valid()
      ensures customSkillText == (if old(isAddingCustomSkill) then text else old(customSkillText))
      ensures selectedSkill == old(selectedSkill) && isAddingCustomSkill == old(isAddingCustomSkill)
      ensures selectedSkills == old(selectedSkills) && userName == old(userName)
      ensures selectedInterests == old(selectedInterests) && selectedEndGoals == old(selectedEndGoals)
    {
      if isAddingCustomSkill {
        customSkillText := text;
      }
    }

    /** A click on a level chip changes the level of the picked skill, if
        there is one. */
    method SelectLevel(level: SkillLevel)
      requires Valid()
      modifies this
      ensures Valid()
      ensures selectedSkill == (if old(selectedSkill).Some? then Some(old(selectedSkill).value.(level := level))
                                else None)
      ensures customSkillText == old(customSkillText) && isAddingCustomSkill == old(isAddingCustomSkill)
      ensures selectedSkills == old(selectedSkills) && userName == old(userName)
      ensures selectedInterests == old(selectedInterests) && selectedEndGoals == old(selectedEndGoals)
    {
      if selectedSkill.Some? {
        selectedSkill := Some(selectedSkill.value.(level := level));
      }
    }

    /** The skill a click on "Add Skill" appends: the custom text as a
        custom beginner skill when the custom field is open and not blank,
        otherwise the skill picked from the drop-down, if any. */
    function PendingSkill(): (p: Option<Skill>)
      reads this
      ensures Valid() && p.Some? ==> ListedSkill(p.value)
    {
      if isAddingCustomSkill && !IsBlank(customSkillText) then Some(Skill(customSkillText, BEGINNER, true))
      else selectedSkill
    }

    /** Whether the "Add Skill" button is enabled: exactly when a click has a
        skill to append. */
    predicate AddSkillEnabled(): (enabled: bool)
      reads this
      ensures enabled <==> PendingSkill().Some?
    {
      (isAddingCustomSkill && !IsBlank(customSkillText)) || selectedSkill.Some?
    }

    /** A click on "Add Skill": a non-blank custom text is appended as a
        custom beginner skill and the field closes; otherwise a picked skill
        is appended and the pick cleared; otherwise nothing happens. */
    method AddSkill()
      requires Valid()
      modifies this
      ensures Valid()
      ensures old(isAddingCustomSkill) && !IsBlank(old(customSkillText)) ==>
                && selectedSkills == old(selectedSkills) + [Skill(old(customSkillText), BEGINNER, true)]
                && customSkillText == [] && !isAddingCustomSkill && selectedSkill == old(selectedSkill)
      ensures !(old(isAddingCustomSkill) && !IsBlank(old(customSkillText))) && old(selectedSkill).Some? ==>
                && selectedSkills == old(selectedSkills) + [old(selectedSkill).value]
                && selectedSkill.None?
                && customSkillText == old(customSkillText) && isAddingCustomSkill == old(isAddingCustomSkill)
      ensures selectedSkills == old(selectedSkills) + match old(PendingSkill()) case Some(k) => [k] case None => []
      ensures !old(AddSkillEnabled()) ==>
                && selectedSkills == old(selectedSkills) && selectedSkill == old(selectedSkill)
                && customSkillText == old(customSkillText) && isAddingCustomSkill == old(isAddingCustomSkill)
      ensures userName == old(userName)
      ensures selectedInterests == old(selectedInterests) && selectedEndGoals == old(selectedEndGoals)
    {
      if isAddingCustomSkill && !IsBlank(customSkillText) {
        var newSkill := Skill(customSkillText, BEGINNER, true);
        selectedSkills := selectedSkills + [newSkill];
        customSkillText := [];
        isAddingCustomSkill := false;
      } else if selectedSkill.Some? {
        selectedSkills := selectedSkills + [selectedSkill.value];
        selectedSkill := None;
      }
    }

    /** A click on a skill's delete button removes every equal entry. */
    method RemoveSkill(skill: Skill)
      requires Valid()
      modifies this
      ensures Valid()
      ensures selectedSkills == Without(old(selectedSkills), skill)
      ensures selectedSkill == old(selectedSkill) && customSkillText == old(customSkillText)
      ensures isAddingCustomSkill == old(isAddingCustomSkill) && userName == old(userName)
      ensures selectedInterests == old(selectedInterests) && selectedEndGoals == old(selectedEndGoals)
    {
      selectedSkills := Without(selectedSkills, skill);
    }

    /** A click on an interest chip. */
    method ToggleInterest(interest: Interest)
      requires Valid() && interest in InterestOptions
      modifies this
      ensures Valid()
      ensures selectedInterests == Toggle(old(selectedInterests), interest)
      ensures selectedSkill == old(selectedSkill) && customSkillText == old(customSkillText)
      ensures isAddingCustomSkill == old(isAddingCustomSkill) && userName == old(userName)
      ensures selectedSkills == old(selectedSkills) && selectedEndGoals == old(selectedEndGoals)
    {
      ToggleNoDuplicates(selectedInterests, interest);
      selectedInterests := Toggle(selectedInterests, interest);
    }

    /** A click on an end-goal chip. */
    method ToggleEndGoal(goal: EndGoal)
      requires Valid() && goal in EndGoalOptions
      modifies this
      ensures Valid()
      ensures selectedEndGoals == Toggle(old(selectedEndGoals), goal)
      ensures selectedSkill == old(selectedSkill) && customSkillText == old(customSkillText)
      ensures isAddingCustomSkill == old(isAddingCustomSkill) && userName == old(userName)
      ensures selectedSkills == old(selectedSkills) && selectedInterests == old(selectedInterests)
    {
      ToggleNoDuplicates(selectedEndGoals, goal);
      selectedEndGoals := Toggle(selectedEndGoals, goal);
    }

    /** Typing in the name field. */
    method EditUserName(name: string)
      requires Valid()
      modifies this
      ensures Valid()
      ensures userName == name
      ensures selectedSkill == old(selectedSkill) && customSkillText == old(customSkillText)
      ensures isAddingCustomSkill == old(isAddingCustomSkill) && selectedSkills == old(selectedSkills)
      ensures selectedInterests == old(selectedInterests) && selectedEndGoals == old(selectedEndGoals)
    {
      userName := name;
    }

    /** Whether the "Submit" button is enabled; `isLoading` is the user
        view model's loading flag. */
    predicate SubmitEnabled(isLoading: bool): (enabled: bool)
      reads this
      ensures enabled <==> (&& !IsBlank(userName) && !isLoading
                            && Submission().0 != [] && Submission().1 != [] && Submission().2 != [])
    {
      && !IsBlank(userName)
      && |selectedSkills| > 0 && |selectedInterests| > 0 && |selectedEndGoals| > 0
      && !isLoading
    }

    /** The profile fields the submit button sends: the skills text, and the
        names of the chosen goals and interests in selection order. */
    function Submission(): (r: (string, seq<string>, seq<string>))
      reads this
      ensures |r.1| == |selectedEndGoals| && |r.2| == |selectedInterests|
      ensures forall i :: 0 <= i < |selectedEndGoals| ==> r.1[i] == selectedEndGoals[i].name
      ensures forall i :: 0 <= i < |selectedInterests| ==> r.2[i] == selectedInterests[i].name
    {
      (FormatSkills(selectedSkills),
       seq(|selectedEndGoals|, i reads this requires 0 <= i < |selectedEndGoals| => selectedEndGoals[i].name),
       seq(|selectedInterests|, i reads this requires 0 <= i < |selectedInterests| => selectedInterests[i].name))
    }
  }

  /** A skill as it can be picked from the drop-down. */
  predicate PickedSkill(s: Skill)
  {
    !s.isCustom && s.name in PredefinedSkills && s.name != "Other"
  }

  /** A skill as it can appear in the selected list. */
  predicate ListedSkill(s: Skill)
  {
    if s.isCustom then !IsBlank(s.name) && s.level == BEGINNER else PickedSkill(s)
  }
}
