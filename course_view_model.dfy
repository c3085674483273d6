/** The course-recommendation view model: it builds a prompt from the
    user's profile and latest assessment, sends it to the generative model,
    finds the JSON array in the reply and turns it into course records,
    all or nothing. */
module CourseViewModel {
  import opened Text
  import opened Records

  /** A value or the message of the exception that was raised instead. */
  datatype Result<+T> = Ok(value: T) | Err(message: string)

  // ---------------------------------------------------------------------
  // Locating the JSON array in the reply.
  // ---------------------------------------------------------------------

  const Fence: string := "```"
  const JsonFenceOpen: string := "```json"
  const NoJsonMessage: string := "Could not extract JSON from response"
  const ParseFailurePrefix: string := "Failed to parse course recommendations: "
  const SuggestFailurePrefix: string := "Failed to get course recommendations: "

  predicate IsJsonFenced(text: string)
  {
    StartsWith(text, JsonFenceOpen) && EndsWith(text, Fence)
  }

  predicate IsBracketed(text: string)
  {
    StartsWith(text, "[") && EndsWith(text, "]")
  }

  /** A text that both opens with "```json" and closes with "```" is at
      least ten characters long: the two markers cannot overlap, so the
      slice between them is always in bounds. */
  lemma FencedIsLongEnough(text: string)
    requires IsJsonFenced(text)
    ensures |text| >= 10
  {
    var n := |text|;
    assert text[n - 3] == text[n - 3..][0] == '`';
    assert forall k :: 0 <= k < 7 ==> text[k] == JsonFenceOpen[k] by {
      assert text[..7] == JsonFenceOpen;
    }
  }

  /** The candidate JSON text of an already trimmed reply: the inside of a
      "```json ... ```" fence, else the whole text when it is bracketed,
      else the span from the first '[' to the last ']'. */
  function ExtractJson(text: string): (r: Result<string>)
    ensures IsJsonFenced(text) ==> |text| >= 10 && r == Ok(Trim(text[7..|text| - 3]))
    ensures !IsJsonFenced(text) && IsBracketed(text) ==> r == Ok(text)
    ensures !IsJsonFenced(text) && !IsBracketed(text) && r.Ok? ==>
              exists i: nat, j: nat :: FirstLastBrackets(text, i, j) && r.value == text[i..j + 1]
    ensures !IsJsonFenced(text) && r.Ok? ==>
              |r.value| >= 2 && r.value[0] == '[' && r.value[|r.value| - 1] == ']'
    ensures r.Err? <==> !IsJsonFenced(text) && !IsBracketed(text) && !HasBracketPair(text)
    ensures r.Err? ==> r.message == NoJsonMessage
  {
    if IsJsonFenced(text) then
      FencedIsLongEnough(text);
      Ok(Trim(text[7..|text| - 3]))
    else if IsBracketed(text) then
      assert text[0] == text[..1][0];
      assert text[|text| - 1] == text[|text| - 1..][0];
      Ok(text)
    else
      BracketSearch(text);
      match (IndexOf(text, "["), LastIndexOf(text, ']'))
      case (Some(startIdx), Some(endIdx)) =>
        if endIdx > startIdx then
          assert FirstLastBrackets(text, startIdx, endIdx);
          Ok(text[startIdx..endIdx + 1])
        else
          Err(NoJsonMessage)
      case _ => Err(NoJsonMessage)
  }

  /** i is the first '[' of the text and j its last ']'. */
  predicate FirstLastBrackets(text: string, i: nat, j: nat)
  {
    && i < j < |text| && text[i] == '[' && text[j] == ']'
    && (forall k :: 0 <= k < i ==> text[k] != '[')
    && (forall k :: j < k < |text| ==> text[k] != ']')
  }

  /** Some ']' comes after some '['. */
  predicate HasBracketPair(text: string)
  {
    exists i, j :: 0 <= i < j < |text| && text[i] == '[' && text[j] == ']'
  }

  /** What `indexOf("[")` and `lastIndexOf(']')` find: the first '[' and the
      last ']', and a pair exists exactly when the second comes after the
      first. */
  lemma BracketSearch(text: string)
    ensures IndexOf(text, "[").Some? ==>
              var i := IndexOf(text, "[").value;
              i < |text| && text[i] == '[' && forall k :: 0 <= k < i ==> text[k] != '['
    ensures HasBracketPair(text) <==>
              IndexOf(text, "[").Some? && LastIndexOf(text, ']').Some?
              && LastIndexOf(text, ']').value > IndexOf(text, "[").value
  {
    var first := IndexOf(text, "[");
    if first.Some? {
      var i := first.value;
      assert text[i] == '[' by { assert text[i..i + 1] == "["; }
      forall k | 0 <= k < i ensures text[k] != '[' {
        assert !OccursAt(text, "[", k);
        assert text[k..k + 1] == [text[k]];
      }
    }
    if HasBracketPair(text) {
      var i, j :| 0 <= i < j < |text| && text[i] == '[' && text[j] == ']';
      assert text[i..i + 1] == "[";
      assert OccursAt(text, "[", i);
    }
  }

  /** The reply text as the view model reads it: `response.text?.trim() ?: ""`. */
  function ReplyText(text: Option<string>): string
  {
    match text
    case Some(t) => Trim(t)
    case None => ""
  }

  /** A reply wrapped in a "```json" fence, with any whitespace around it,
      yields the fenced content, trimmed. */
  lemma FencedReply(pre: string, content: string, post: string)
    requires AllWhitespace(pre) && AllWhitespace(post)
    ensures ExtractJson(ReplyText(Some(pre + JsonFenceOpen + content + Fence + post)))
            == Ok(Trim(content))
  {
    var fenced := JsonFenceOpen + content + Fence;
    assert fenced[0] == '`' && fenced[|fenced| - 1] == '`';
    assert pre + JsonFenceOpen + content + Fence + post == pre + fenced + post;
    TrimPadded(pre, fenced, post);
    assert fenced[..7] == JsonFenceOpen;
    assert fenced[|fenced| - 3..] == Fence;
    assert fenced[7..|fenced| - 3] == content;
  }

  /** An array embedded in prose that has no '[' before it and no ']'
      after it is found exactly. */
  lemma EmbeddedArray(before: string, arr: string, after: string)
    requires |arr| >= 2 && arr[0] == '[' && arr[|arr| - 1] == ']'
    requires forall k :: 0 <= k < |before| ==> before[k] != '['
    requires forall k :: 0 <= k < |after| ==> after[k] != ']'
    requires before == [] || before[0] != '`'
    ensures ExtractJson(before + arr + after) == Ok(arr)
  {
    var text := before + arr + after;
    var i, j := |before|, |before| + |arr| - 1;
    assert text[i] == '[' && text[j] == ']';
    assert !IsJsonFenced(text) by {
      if before == [] { assert text[0] == '['; } else { assert text[0] == before[0]; }
      if |text| >= 7 { assert text[..7][0] == text[0]; }
    }
    if IsBracketed(text) {
      // A bracketed text is its own candidate; then there is no prose around it.
      assert text[0] == text[..1][0];
      assert text[|text| - 1] == text[|text| - 1..][0];
      assert before == [] && after == [];
      assert text == arr;
    } else {
      BracketSearch(text);
      var first := IndexOf(text, "[");
      assert first.Some? && first.value <= i by {
        assert HasBracketPair(text);
      }
      assert first.value == i;
      var last := LastIndexOf(text, ']');
      assert last.Some? && last.value >= j;
      assert last.value == j;
      assert text[i..j + 1] == arr;
    }
  }

  // ---------------------------------------------------------------------
  // Mapping the parsed array to course records.
  // ---------------------------------------------------------------------

  /** One element of the parsed JSON array, as the platform's org.json
      library presents it: an object whose present fields read as text
      (getString coerces non-string values), or something else, with the
      message getJSONObject raises for it. */
  datatype JsonElement = JsonObject(fields: map<string, string>) | NotAnObject(detail: string)

  /** What `JSONArray(text)` yields: the elements, or the message of the
      syntax error it raises. */
  datatype JsonArrayParse = JsonArray(elements: seq<JsonElement>) | JsonSyntaxError(detail: string)

  /** The message org.json raises when getString finds no such field. */
  function MissingFieldMessage(key: string): string
  {
    "No value for " + key
  }

  predicate IsCourseObject(e: JsonElement)
  {
    e.JsonObject? && "name" in e.fields && "url" in e.fields
  }

  /** The message raised for the first element that is not a course object. */
  function ElementError(e: JsonElement): string
  {
    match e
    case NotAnObject(d) => d
    case JsonObject(f) => if "name" !in f then MissingFieldMessage("name") else MissingFieldMessage("url")
  }

  /** The course records of a parsed array: one per element, in order, or
      the message of the first element that fails. */
  function CoursesFrom(elements: seq<JsonElement>): (r: Result<seq<CourseRecommendation>>)
    ensures r.Ok? <==> forall i :: 0 <= i < |elements| ==> IsCourseObject(elements[i])
    ensures r.Ok? ==> |r.value| == |elements|
    ensures r.Ok? ==> forall i :: 0 <= i < |elements| ==>
              r.value[i] == CourseRecommendation(elements[i].fields["name"], elements[i].fields["url"])
    ensures r.Err? ==> exists k :: (0 <= k < |elements| && !IsCourseObject(elements[k])
              && (forall i :: 0 <= i < k ==> IsCourseObject(elements[i]))
              && r.message == ElementError(elements[k]))
  {
    if elements == [] then Ok([])
    else
      var e := elements[0];
      var rest := CoursesFrom(elements[1..]);
      assert forall i :: 1 <= i < |elements| ==> elements[1..][i - 1] == elements[i];
      if !IsCourseObject(e) then Err(ElementError(e))
      else match rest
        case Ok(cs) => Ok([CourseRecommendation(e.fields["name"], e.fields["url"])] + cs)
        case Err(m) =>
          var k :| 0 <= k < |elements[1..]| && !IsCourseObject(elements[1..][k])
                   && (forall i :: 0 <= i < k ==> IsCourseObject(elements[1..][i]))
                   && m == ElementError(elements[1..][k]);
          assert !IsCourseObject(elements[k + 1]);
          rest
  }

  /** The whole of `parseGeminiResponse`: candidate, JSON, records, with
      every failure wrapped in one message. */
  function CoursesFromReply(text: Option<string>, parseJsonArray: string -> JsonArrayParse)
    : (r: Result<seq<CourseRecommendation>>)
    ensures r.Err? ==> StartsWith(r.message, ParseFailurePrefix)
    ensures ExtractJson(ReplyText(text)).Err? ==> r == Err(ParseFailurePrefix + NoJsonMessage)
  {
    match ExtractJson(ReplyText(text))
    case Err(m) => Err(ParseFailurePrefix + m)
    case Ok(candidate) =>
      match parseJsonArray(candidate)
      case JsonSyntaxError(d) => Err(ParseFailurePrefix + d)
      case JsonArray(elements) =>
        match CoursesFrom(elements)
        case Ok(cs) => Ok(cs)
        case Err(m) => Err(ParseFailurePrefix + m)
  }

  /** All or nothing: a reply yields a list only when every element of its
      array is an object with a name and a url, and then exactly one record
      per element; otherwise no list at all. */
  lemma AllOrNothing(text: Option<string>, parseJsonArray: string -> JsonArrayParse)
    ensures var candidate := ExtractJson(ReplyText(text));
            var r := CoursesFromReply(text, parseJsonArray);
            r.Ok? <==> (&& candidate.Ok?
                        && parseJsonArray(candidate.value).JsonArray?
                        && forall i :: 0 <= i < |parseJsonArray(candidate.value).elements| ==>
                             IsCourseObject(parseJsonArray(candidate.value).elements[i]))
    ensures var candidate := ExtractJson(ReplyText(text));
            var r := CoursesFromReply(text, parseJsonArray);
            r.Ok? ==> |r.value| == |parseJsonArray(candidate.value).elements|
  {
  }

  /** `parseGeminiResponse`: locate the array, parse it and build the
      records; every failure on the way is re-raised with one prefix. */
  method ParseGeminiResponse(responseText: Option<string>, parseJsonArray: string -> JsonArrayParse)
    returns (r: Result<seq<CourseRecommendation>>)
    ensures r == CoursesFromReply(responseText, parseJsonArray)
  {
    var text := ReplyText(responseText);
    var jsonContent := ExtractJson(text);
    if jsonContent.Err? {
      return Err(ParseFailurePrefix + jsonContent.message);
    }
    var jsonArray := parseJsonArray(jsonContent.value);
    if jsonArray.JsonSyntaxError? {
      return Err(ParseFailurePrefix + jsonArray.detail);
    }
    var courses := BuildCourses(jsonArray.elements);
    if courses.Err? {
      return Err(ParseFailurePrefix + courses.message);
    }
    return courses;
  }

  /** The loop of `parseGeminiResponse`: one record per element, in order;
      the first element without an object, a name or a url aborts it. */
  method BuildCourses(elements: seq<JsonElement>) returns (r: Result<seq<CourseRecommendation>>)
    ensures r == CoursesFrom(elements)
  {
    var courses: seq<CourseRecommendation> := [];
    for i := 0 to |elements|
      invariant |courses| == i
      invariant forall k :: 0 <= k < i ==> (IsCourseObject(elements[k])
                  && courses[k] == CourseRecommendation(elements[k].fields["name"], elements[k].fields["url"]))
    {
      var courseJson := elements[i];
      if courseJson.NotAnObject? {
        CoursesFromFirstFailure(elements, i);
        return Err(courseJson.detail);
      }
      if "name" !in courseJson.fields {
        CoursesFromFirstFailure(elements, i);
        return Err(MissingFieldMessage("name"));
      }
      if "url" !in courseJson.fields {
        CoursesFromFirstFailure(elements, i);
        return Err(MissingFieldMessage("url"));
      }
      var name := courseJson.fields["name"];
      var url := courseJson.fields["url"];
      courses := courses + [CourseRecommendation(name, url)];
    }
    CoursesFromSuccess(elements, courses);
    return Ok(courses);
  }

  /** The first element that is not a course object decides the error. */
  lemma {:induction false} CoursesFromFirstFailure(elements: seq<JsonElement>, k: nat)
    requires k < |elements| && !IsCourseObject(elements[k])
    requires forall i :: 0 <= i < k ==> IsCourseObject(elements[i])
    ensures CoursesFrom(elements) == Err(ElementError(elements[k]))
  {
    if k > 0 {
      assert forall i :: 0 <= i < k - 1 ==> elements[1..][i] == elements[i + 1];
      CoursesFromFirstFailure(elements[1..], k - 1);
    }
  }

  /** When every element is a course object, the records are determined. */
  lemma CoursesFromSuccess(elements: seq<JsonElement>, courses: seq<CourseRecommendation>)
    requires |courses| == |elements|
    requires forall k :: 0 <= k < |elements| ==> (IsCourseObject(elements[k])
               && courses[k] == CourseRecommendation(elements[k].fields["name"], elements[k].fields["url"]))
    ensures CoursesFrom(elements) == Ok(courses)
  {
    var r := CoursesFrom(elements);
    assert r.value == courses;
  }

  // ---------------------------------------------------------------------
  // The prompt.
  // ---------------------------------------------------------------------

  /** The index of the assessment `maxByOrNull { it.timestamp }` returns:
      the first one with the largest timestamp. */
  function LatestIndex(results: seq<AssessmentResult>): (m: nat)
    requires results != []
    ensures m < |results|
    ensures forall k :: 0 <= k < |results| ==> results[k].timestamp <= results[m].timestamp
    ensures forall k :: 0 <= k < m ==> results[k].timestamp < results[m].timestamp
  {
    if |results| == 1 then 0
    else
      var init := results[..|results| - 1];
      var m := LatestIndex(init);
      assert forall k :: 0 <= k < |init| ==> init[k] == results[k];
      if results[m].timestamp < results[|results| - 1].timestamp then |results| - 1 else m
  }

  /** `assessmentResults.maxByOrNull { it.timestamp }`. */
  function LatestAssessment(results: seq<AssessmentResult>): (latest: Option<AssessmentResult>)
    ensures latest.None? <==> results == []
    ensures latest.Some? ==> (latest.value in results
            && forall a :: a in results ==> a.timestamp <= latest.value.timestamp)
  {
    if results == [] then None else Some(results[LatestIndex(results)])
  }

  /** The choice is the first of the latest: an assessment that comes
      earlier in the list has an older timestamp. */
  lemma LatestIsFirstOfTies(results: seq<AssessmentResult>, k: nat)
    requires results != [] && k < |results|
    requires results[k].timestamp == LatestAssessment(results).value.timestamp
    ensures LatestIndex(results) <= k
  {
  }

  /** Kotlin's Int.toString. */
  function IntToString(n: int): string
  {
    if n < 0 then "-" + NatToString(-n) else NatToString(n)
  }

  function NatToString(n: nat): (s: string)
    ensures |s| >= 1 && forall k :: 0 <= k < |s| ==> IsDigit(s[k])
  {
    if n < 10 then ['0' + n as char]
    else NatToString(n / 10) + ['0' + (n % 10) as char]
  }

  const Indent12: string := "            "
  const Indent16: string := "                "
  const NoAssessmentText: string := "No assessment results available."

  /** The line for one answered question inside the assessment section. */
  function QuestionLine(q: QuestionResult): string
  {
    "  * " + q.question + ": " + (if q.isCorrect then "Correct" else "Incorrect")
  }

  function QuestionLines(qs: seq<QuestionResult>): (lines: seq<string>)
    ensures |lines| == |qs|
  {
    seq(|qs|, i requires 0 <= i < |qs| => QuestionLine(qs[i]))
  }

  /** The text that stands for the latest assessment in the prompt: the
      raw inner block for a present one, the fixed sentence otherwise. */
  function AssessmentSection(latest: Option<AssessmentResult>): string
  {
    match latest
    case None => NoAssessmentText
    case Some(a) =>
      Join([
        "",
        Indent16 + "Latest Assessment:",
        Indent16 + "- Score: " + IntToString(a.score) + "/" + IntToString(a.totalQuestions),
        Indent16 + "- Questions and Answers:",
        Indent16 + Join(QuestionLines(a.questions), "\n"),
        Indent16], "\n")
  }

  // The fixed lines of the prompt template.
  const Instruction: string := "Based on this user profile and assessment results, suggest 5 relevant courses. Return ONLY a JSON array of course objects with 'name' and 'url' fields."
  const FormatExample1: string := "  {\"name\": \"Course Name 1\", \"url\": \"https://example.com/course1\"},"
  const FormatExample2: string := "  {\"name\": \"Course Name 2\", \"url\": \"https://example.com/course2\"},"
  const NoExtraText: string := "DO NOT include any explanation or additional text outside the JSON array."

  /** The prompt before `trimIndent()`: the raw multi-line template, line by
      line, with the profile and the assessment section interpolated. */
  function PromptTemplate(userData: UserData, latest: Option<AssessmentResult>): string
  {
    Join(TemplateLines(userData, latest), "\n")
  }

  /** The template's lines between its blank first and last lines, each
      written in the source with an indentation of twelve spaces. */
  function TemplateLines(userData: UserData, latest: Option<AssessmentResult>): seq<string>
  {
    [""] + Indented(Indent12, PromptLines(userData, AssessmentSection(latest))) + [Indent8]
  }

  const Indent8: string := "        "

  /** The prompt the template stands for, line by line, without the
      indentation the source code adds: the instruction, the profile, the
      assessment section and the format example. */
  function PromptLines(userData: UserData, section: string): seq<string>
  {
    [
      Instruction,
      "",
      "User Profile:",
      "- Skills: " + userData.skills,
      "- Experience: " + userData.experience,
      "- Goals: " + Join(userData.yourEndGoal, ", "),
      "- Interests: " + Join(userData.interests, ", "),
      "",
      section,
      "",
      "Return ONLY a JSON array in this format:",
      "[",
      FormatExample1,
      FormatExample2,
      "  ...",
      "]",
      "",
      NoExtraText]
  }

  function Indented(indent: string, lines: seq<string>): (r: seq<string>)
    ensures |r| == |lines|
  {
    seq(|lines|, i requires 0 <= i < |lines| => indent + lines[i])
  }

  /** `buildPrompt`: the template for the latest assessment, with its common
      indentation removed. */
  function BuildPrompt(userData: UserData, assessmentResults: seq<AssessmentResult>): string
  {
    TrimIndent(PromptTemplate(userData, LatestAssessment(assessmentResults)))
  }

  // Kotlin's String.trimIndent(): split into lines, drop a blank first and
  // a blank last line, remove the smallest indentation of the non-blank
  // lines from every line, and join with "\n".

  /** Kotlin's lines(): split on "\r\n", "\n" or "\r", scanning from index i
      with the current line starting at `start`. */
  function LinesFrom(s: string, start: nat, i: nat): (lines: seq<string>)
    requires start <= i <= |s|
    decreases |s| - i
    ensures |lines| >= 1
  {
    if i == |s| then [s[start..]]
    else if s[i] == '\r' && i + 1 < |s| && s[i + 1] == '\n' then [s[start..i]] + LinesFrom(s, i + 2, i + 2)
    else if s[i] == '\n' || s[i] == '\r' then [s[start..i]] + LinesFrom(s, i + 1, i + 1)
    else LinesFrom(s, start, i + 1)
  }

  /** The width of a line's indentation (its length when it is blank). */
  function IndentWidth(line: string): nat
  {
    TrimStartIndex(line, 0)
  }

  /** The smallest indentation among the non-blank lines, if any. */
  function MinIndent(lines: seq<string>): (m: Option<nat>)
    ensures m.Some? ==> exists k :: 0 <= k < |lines| && !IsBlank(lines[k]) && IndentWidth(lines[k]) == m.value
    ensures m.Some? ==> forall k :: 0 <= k < |lines| && !IsBlank(lines[k]) ==> m.value <= IndentWidth(lines[k])
    ensures m.None? <==> forall k :: 0 <= k < |lines| ==> IsBlank(lines[k])
  {
    if lines == [] then None
    else
      var rest := MinIndent(lines[1..]);
      assert forall k :: 1 <= k < |lines| ==> lines[1..][k - 1] == lines[k];
      if IsBlank(lines[0]) then rest
      else match rest
        case None => Some(IndentWidth(lines[0]))
        case Some(w) => if IndentWidth(lines[0]) <= w then Some(IndentWidth(lines[0])) else Some(w)
  }

  /** Kotlin's drop(n). */
  function Drop(line: string, n: nat): string
  {
    if n <= |line| then line[n..] else []
  }

  /** The kept lines from index i on, each with `indent` characters
      dropped; a blank first or last line is left out. */
  function KeptLines(lines: seq<string>, indent: nat, i: nat): (out: seq<string>)
    requires i <= |lines|
    decreases |lines| - i
    ensures |out| <= |lines| - i
  {
    if i == |lines| then []
    else if (i == 0 || i == |lines| - 1) && IsBlank(lines[i]) then KeptLines(lines, indent, i + 1)
    else [Drop(lines[i], indent)] + KeptLines(lines, indent, i + 1)
  }

  function TrimIndent(s: string): string
  {
    var lines := LinesFrom(s, 0, 0);
    var indent := match MinIndent(lines) case Some(m) => m case None => 0;
    Join(KeptLines(lines, indent, 0), "\n")
  }

  /** Neither a line feed nor a carriage return. */
  predicate NoLineBreak(line: string)
  {
    forall k :: 0 <= k < |line| ==> line[k] != '\n' && line[k] != '\r'
  }

  /** With no assessment to report, and no line break in any line of the
      prompt (the profile fields are the only lines that can hold one), the
      prompt is the prompt lines joined with "\n": trimIndent removes exactly
      the twelve spaces the source indents its template with, and the blank
      first and last lines. */
  lemma PromptWithoutAssessment(userData: UserData, assessmentResults: seq<AssessmentResult>)
    requires assessmentResults == []
    requires forall j :: 0 <= j < 18 ==> NoLineBreak(PromptLines(userData, NoAssessmentText)[j])
    ensures BuildPrompt(userData, assessmentResults) == Join(PromptLines(userData, NoAssessmentText), "\n")
  {
    var body := PromptLines(userData, NoAssessmentText);
    assert body[2] == "User Profile:";
    TrimIndentOfIndented(body, 2);
  }

  lemma PrefixedUnbroken(prefix: string, field: string)
    requires NoLineBreak(prefix) && NoLineBreak(field)
    ensures NoLineBreak(prefix + field)
  {
    assert forall k :: |prefix| <= k < |prefix + field| ==> (prefix + field)[k] == field[k - |prefix|];
  }

  /** trimIndent of lines indented by twelve spaces, between a blank first
      line and a blank last line, gives the lines back unindented, as long as
      one of them (line j) starts with a non-blank. */
  lemma TrimIndentOfIndented(body: seq<string>, j: nat)
    requires j < |body| && |body[j]| >= 1 && !IsWhitespace(body[j][0])
    requires forall k :: 0 <= k < |body| ==> NoLineBreak(body[k])
    ensures TrimIndent(Join([""] + Indented(Indent12, body) + [Indent8], "\n")) == Join(body, "\n")
  {
    var lines := [""] + Indented(Indent12, body) + [Indent8];
    var s := Join(lines, "\n");
    forall i | 0 <= i < |lines| ensures NoLineBreak(lines[i]) {
      if 1 <= i < |lines| - 1 {
        assert lines[i] == Indent12 + body[i - 1];
        PrefixedUnbroken(Indent12, body[i - 1]);
      }
    }
    assert s[0..] == s;
    LinesOfJoin(s, 0, lines);
    IndentedMinimum(body, lines, j);
    KeptIndented(body, lines, 1);
    assert lines[0] == "" && IsBlank(lines[0]);
  }

  /** The least indentation of those lines is the twelve spaces. */
  lemma IndentedMinimum(body: seq<string>, lines: seq<string>, j: nat)
    requires j < |body| && |body[j]| >= 1 && !IsWhitespace(body[j][0])
    requires lines == [""] + Indented(Indent12, body) + [Indent8]
    ensures MinIndent(lines) == Some(12)
  {
    IndentedLineAt(body, lines, j + 1);
    IndentOfIndented(body[j]);
    forall k | 0 <= k < |lines| && !IsBlank(lines[k]) ensures IndentWidth(lines[k]) >= 12 {
      IndentedLineAt(body, lines, k);
      if 1 <= k < |lines| - 1 {
        IndentOfIndented(body[k - 1]);
      }
    }
    LeastIndent(lines, j + 1, 12);
  }

  /** A non-blank line indented by w, where no non-blank line is indented
      by less, fixes the least indentation. */
  lemma LeastIndent(lines: seq<string>, j: nat, w: nat)
    requires j < |lines| && !IsBlank(lines[j]) && IndentWidth(lines[j]) == w
    requires forall k :: 0 <= k < |lines| && !IsBlank(lines[k]) ==> IndentWidth(lines[k]) >= w
    ensures MinIndent(lines) == Some(w)
  {
    var m := MinIndent(lines);
    assert m.Some? && m.value <= w;
    var k :| 0 <= k < |lines| && !IsBlank(lines[k]) && IndentWidth(lines[k]) == m.value;
    var v := m.value;
    assert IndentWidth(lines[k]) >= w && v == IndentWidth(lines[k]);
    assert v == w;
    assert m == Some(v);
  }

  /** Line k of the indented template: blank at both ends, the indented
      body line in between. */
  lemma IndentedLineAt(body: seq<string>, lines: seq<string>, k: nat)
    requires lines == [""] + Indented(Indent12, body) + [Indent8] && k < |lines|
    ensures k == 0 || k == |lines| - 1 ==> IsBlank(lines[k])
    ensures 1 <= k < |lines| - 1 ==> lines[k] == Indent12 + body[k - 1]
  {
  }

  /** Twelve spaces in front of a line indent it by at least twelve, and by
      exactly twelve when the line starts with a non-blank. */
  lemma IndentOfIndented(line: string)
    ensures IndentWidth(Indent12 + line) >= 12
    ensures |line| >= 1 && !IsWhitespace(line[0]) ==> IndentWidth(Indent12 + line) == 12 && !IsBlank(Indent12 + line)
  {
    var s := Indent12 + line;
    assert forall i :: 0 <= i < 12 ==> IsWhitespace(s[i]);
    if |line| >= 1 {
      assert s[12] == line[0];
    }
  }

  /** From line i on, trimIndent keeps every indented line with its twelve
      spaces dropped, and leaves out the blank last line. */
  lemma {:induction false} KeptIndented(body: seq<string>, lines: seq<string>, i: nat)
    requires lines == [""] + Indented(Indent12, body) + [Indent8] && 1 <= i <= |body| + 1
    ensures KeptLines(lines, 12, i) == body[i - 1..]
    decreases |body| + 1 - i
  {
    if i == |body| + 1 {
      assert IsBlank(lines[i]);
      assert KeptLines(lines, 12, i + 1) == [];
    } else {
      var n := i + 1;
      KeptIndented(body, lines, n);
      assert lines[i] == Indent12 + body[i - 1];
      assert Drop(lines[i], 12) == body[i - 1];
      assert body[i - 1..] == [body[i - 1]] + body[n - 1..];
    }
  }

  /** Kotlin's lines() of lines joined with "\n" gives them back, when none
      holds a line break of its own. */
  lemma {:induction false} LinesOfJoin(s: string, start: nat, parts: seq<string>)
    requires parts != [] && forall j :: 0 <= j < |parts| ==> NoLineBreak(parts[j])
    requires start <= |s| && s[start..] == Join(parts, "\n")
    ensures LinesFrom(s, start, start) == parts
    decreases |parts|
  {
    var z := start + |parts[0]|;
    if |parts| == 1 {
      LineRunsTo(s, start, start, |s|);
      assert s[start..] == parts[0];
    } else {
      var rest := Join(parts[1..], "\n");
      var n := z + 1;
      PartThenRest(s, start, parts[0], rest, z, n);
      assert forall k :: start <= k < z ==> s[k] == parts[0][k - start];
      LineRunsTo(s, start, start, z);
      LineFeedAt(s, start, z, n);
      assert forall j :: 0 <= j < |parts| - 1 ==> parts[1..][j] == parts[j + 1];
      LinesOfJoin(s, n, parts[1..]);
      assert [parts[0]] + parts[1..] == parts;
    }
  }

  /** Where a part and "\n" start at `start`, the rest starts at n. */
  lemma PartThenRest(s: string, start: nat, part: string, rest: string, z: nat, n: nat)
    requires start <= |s| && s[start..] == part + "\n" + rest
    requires z == start + |part| && n == z + 1
    ensures n <= |s| && s[start..z] == part && s[z] == '\n' && s[n..] == rest
  {
    assert s[start..z] == (part + "\n" + rest)[..|part|];
    assert s[z] == (part + "\n" + rest)[|part|];
    assert s[n..] == (part + "\n" + rest)[|part| + 1..];
  }

  /** No line break in [i, z): the current line goes on. */
  lemma {:induction false} LineRunsTo(s: string, start: nat, i: nat, z: nat)
    requires start <= i <= z <= |s|
    requires forall k :: i <= k < z ==> s[k] != '\n' && s[k] != '\r'
    ensures LinesFrom(s, start, i) == LinesFrom(s, start, z)
    decreases z - i
  {
    if i < z {
      var n := i + 1;
      LineRunsTo(s, start, n, z);
    }
  }

  /** A line feed at z ends the current line there. */
  lemma LineFeedAt(s: string, start: nat, z: nat, n: nat)
    requires start <= z < |s| && s[z] == '\n' && n == z + 1
    ensures LinesFrom(s, start, z) == [s[start..z]] + LinesFrom(s, n, n)
  {
  }

  // ---------------------------------------------------------------------
  // The view model's state.
  // ---------------------------------------------------------------------

  /** What the generative model call produced: the reply (whose text may
      be absent) or the message of the exception it raised. */
  datatype ModelReply = Reply(text: Option<string>) | CallFailed(message: string)

  /** What the try block of `suggestCourses` ends with: the parsed courses,
      or the message of the exception raised by the call or by the parser. */
  function SuggestOutcome(reply: ModelReply, parseJsonArray: string -> JsonArrayParse)
    : (r: Result<seq<CourseRecommendation>>)
    ensures reply.CallFailed? ==> r == Err(reply.message)
    ensures reply.Reply? ==> r == CoursesFromReply(reply.text, parseJsonArray)
  {
    match reply
    case CallFailed(message) => Err(message)
    case Reply(text) => CoursesFromReply(text, parseJsonArray)
  }

  class CourseRecommendationState {
    var isLoading: bool
    var courseRecommendations: seq<CourseRecommendation>
    var error: Option<string>

    constructor ()
      ensures !isLoading && courseRecommendations == [] && error.None?
    {
      isLoading := false;
      courseRecommendations := [];
      error := None;
    }

    /** The end of the try block or the catch block of `suggestCourses`:
        publish the parsed courses, or record the failure and keep the
        courses shown before. */
    method Publish(outcome: Result<seq<CourseRecommendation>>)
      modifies this
      ensures isLoading == old(isLoading)
      ensures outcome.Ok? ==> courseRecommendations == outcome.value && error == old(error)
      ensures outcome.Err? ==> courseRecommendations == old(courseRecommendations)
                               && error == Some(SuggestFailurePrefix + outcome.message)
    {
      match outcome {
        case Ok(courses) => courseRecommendations := courses;
        case Err(message) => error := Some(SuggestFailurePrefix + message);
      }
    }

    /** `suggestCourses`: clear the error and raise the loading flag, build
        the prompt, send it, parse the reply; on success replace the
        recommendations, on any failure record the message and keep the old
        recommendations; lower the loading flag at the end. The prompt sent
        is returned; the reply is given as a parameter. */
    method SuggestCourses(userData: UserData, assessmentResults: seq<AssessmentResult>,
                          reply: ModelReply, parseJsonArray: string -> JsonArrayParse)
      returns (prompt: string)
      modifies this
      ensures prompt == BuildPrompt(userData, assessmentResults)
      ensures !isLoading
      ensures var outcome := SuggestOutcome(reply, parseJsonArray);
              && (outcome.Ok? ==> courseRecommendations == outcome.value && error.None?)
              && (outcome.Err? ==> courseRecommendations == old(courseRecommendations)
                                   && error == Some(SuggestFailurePrefix + outcome.message))
    {
      isLoading := true;
      error := None;
      prompt := BuildPrompt(userData, assessmentResults);
      var outcome: Result<seq<CourseRecommendation>>;
      match reply {
        case CallFailed(message) =>
          outcome := Err(message);
        case Reply(text) =>
          outcome := ParseGeminiResponse(text, parseJsonArray);
      }
      Publish(outcome);
      isLoading := false;
    }
  }
}
