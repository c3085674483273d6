# SuggestMe core, modelled in Dafny

SuggestMe is an Android app. A user fills in a profile form (name, skills with levels, interests, end goals), and the app asks the Gemini model for course suggestions and a multiple-choice skill assessment. The user takes the assessment on a swipeable quiz screen, and the course view model turns a later Gemini reply into a list of course recommendations. The Compose UI, Firestore and the Gemini calls are not modelled. This project models the text processing and state bookkeeping between them, and proves properties of that model:

- `text.dfy` (module `Text`): the Kotlin string primitives the app relies on.
  - `trim` and `isBlank` use Kotlin's `Char.isWhitespace`.
  - Java regex `\s`, and ASCII-only case folding for `(?i)`.
  - `indexOf`, `lastIndexOf`, `substringBefore` and `joinToString`.
- `records.dfy` (module `Records`): the stored records `CourseRecommendation`, `QuestionResult`, `AssessmentResult` and `UserData`.
- `skill_questions.dfy` (module `SkillQuestions`): the quiz.
  - `parseQuestions` is modelled with hand-written scanners for its three regular expressions. It is a loop method proved against a recursive specification.
  - Also scoring, the "all answered" test, the conversion to `QuestionResult`s, the retake reset and the next-question rule.
  - The screen state is the class `AssessmentScreen`.
- `quiz_layout.dfy` (module `QuizLayout`): a block laid out the way the patterns of `parseQuestions` accept it (SkillQuestions.kt:511-525): "q", then "X) option" lines, then "Correct Answer: L". A block written that way parses back into the question it was written from.
- `quiz_split.dfy` (module `QuizSplit`): a reply laid out the way the block separator of `parseQuestions` accepts it (SkillQuestions.kt:511), "Question 1: …Question 2: …". Splitting it on the block separator gives the blocks back in order.
- `course_view_model.dfy` (module `CourseViewModel`): course recommendations.
  - JSON-candidate extraction from the reply, and the all-or-nothing mapping of array elements to courses, as a loop method.
  - Latest-assessment selection and the prompt text.
  - The loading, error and recommendation state updates of `suggestCourses`, in the class `CourseRecommendationState`.
- `form.dfy` (module `Form`): the profile form.
  - The section splitter for the combined Gemini reply, with Java's `$` modelled exactly.
  - The skills text the form submits, with a reading-back inverse.
  - Toggling interests and goals in Kotlin's insertion-ordered sets, and removing skills.
  - The form state as the class `SkillForm`.

Kotlin sets built with `setOf`, `plus` and `minus` are `LinkedHashSet`s. They are modelled as duplicate-free sequences in insertion order. Kotlin's `maxByOrNull` keeps the first maximum, and the model does the same.

## Model

| member | source | states |
|---|---|---|
| SkillQuestions.MarkerEnd | app/src/main/java/com/collegegrad/suggestme/UserInterface/SkillQuestions.kt:511 | A marker matches at i iff "question" (any ASCII case) is there and is followed either directly by a colon or by optional `\s` characters, at least one digit and a colon. The match then ends after the blanks that follow that colon. |
| SkillQuestions.SplitPiecesHaveNoMarker | app/src/main/java/com/collegegrad/suggestme/UserInterface/SkillQuestions.kt:511 | `split` cuts at every marker: no piece it returns contains a marker match. |
| QuizSplit.QuizBlocks | app/src/main/java/com/collegegrad/suggestme/UserInterface/SkillQuestions.kt:511-512 | Splitting "Question n1: b1Question n2: b2…" and dropping blank pieces gives back exactly [b1, b2, …], in order. This holds for any digit strings n_i and for blocks that are not blank, hold no marker and do not start with a `\s` character. |
| QuizSplit.QuizQuestions | app/src/main/java/com/collegegrad/suggestme/UserInterface/SkillQuestions.kt:511-543 | For such a reply whose blocks all parse, question i is the parse of block i and there are no others. |
| QuizSplit.PiecesFrom | app/src/main/java/com/collegegrad/suggestme/UserInterface/SkillQuestions.kt:511 | After a marker, the split returns the block that follows, then the blocks after the later markers. |
| QuizSplit.MarkerMatch | app/src/main/java/com/collegegrad/suggestme/UserInterface/SkillQuestions.kt:511 | "Question " + digits + ": " matches at its start, and the match ends right after it when a non-blank follows. |
| QuizSplit.MarkerBack | app/src/main/java/com/collegegrad/suggestme/UserInterface/SkillQuestions.kt:511 | A marker found inside a block followed by "Q" or by the end of input is a marker of the block itself. |
| SkillQuestions.NonBlank | app/src/main/java/com/collegegrad/suggestme/UserInterface/SkillQuestions.kt:512 | Keeps exactly the pieces that are not blank, and no more pieces than it was given. |
| SkillQuestions.NonBlankAppend | app/src/main/java/com/collegegrad/suggestme/UserInterface/SkillQuestions.kt:512 | Filtering distributes over concatenation, so the kept pieces keep their order and multiplicity. |
| SkillQuestions.NonBlankSingle | app/src/main/java/com/collegegrad/suggestme/UserInterface/SkillQuestions.kt:512 | A single piece is kept iff it is not blank. |
| SkillQuestions.OptionAt | app/src/main/java/com/collegegrad/suggestme/UserInterface/SkillQuestions.kt:520 | A match exists at i iff a letter A-D and ')' are there and some later character is not a line feed. Its text is one line of at least one character, and the match ends at a line feed or the end of input. |
| SkillQuestions.OptionsFrom | app/src/main/java/com/collegegrad/suggestme/UserInterface/SkillQuestions.kt:520-521 | Every collected option text is trimmed and on one line. It may be empty, when only blanks follow the ')'. |
| QuizLayout.OptionsRoundTrip | app/src/main/java/com/collegegrad/suggestme/UserInterface/SkillQuestions.kt:520-521 | Option lines "X) text\n" with X in A-D and one-line texts read back as the trimmed texts, in order. |
| QuizLayout.LinesThen | app/src/main/java/com/collegegrad/suggestme/UserInterface/SkillQuestions.kt:520-521 | Option lines in front of any text t give their trimmed texts, followed by the options of t. The search resumes at each line's end, so an "X)" inside a text is not a second match. |
| QuizLayout.OptionsFromShift | app/src/main/java/com/collegegrad/suggestme/UserInterface/SkillQuestions.kt:520-521 | The options found in x+y from position j past the end of x are those found from j on in y: the pattern looks at nothing before its start. |
| QuizLayout.OptionAtShift | app/src/main/java/com/collegegrad/suggestme/UserInterface/SkillQuestions.kt:520 | The option match in x+y at position i past the end of x is the match at i in y, with its end moved by the length of x and the same text. |
| QuizLayout.BlockOptions | app/src/main/java/com/collegegrad/suggestme/UserInterface/SkillQuestions.kt:520-521 | The options of a block "q\nX) o1\n…Correct Answer: L" are the trimmed o_i, when q holds no "X)". |
| QuizLayout.BlockQuestionText | app/src/main/java/com/collegegrad/suggestme/UserInterface/SkillQuestions.kt:517 | The question text of such a block is the trimmed q, when q holds no "X)" and the first option is "A)". |
| QuizLayout.BlockAnswer | app/src/main/java/com/collegegrad/suggestme/UserInterface/SkillQuestions.kt:524-525 | The answer found in such a block is the written letter, when no text holds a "Correct Answer:". |
| QuizLayout.BlockRoundTrip | app/src/main/java/com/collegegrad/suggestme/UserInterface/SkillQuestions.kt:515-536 | Such a block, with at least four options, parses to the question with text Trim(q), options [Trim(o1), …], answer L and no selection. |
| SkillQuestions.FindCorrectAnswer | app/src/main/java/com/collegegrad/suggestme/UserInterface/SkillQuestions.kt:524-525 | Returns the letter of the leftmost "Correct Answer:" match (ASCII case-insensitive): no match starts before it. The letter is one of A-D or a-d. None means no match exists anywhere. |
| SkillQuestions.ParseBlock | app/src/main/java/com/collegegrad/suggestme/UserInterface/SkillQuestions.kt:515-536 | A block yields a question iff a correct-answer letter is found and at least 4 options matched. Its text is the trimmed prefix before the first "A)". It keeps all options, not only 4. |
| SkillQuestions.ParsedQuestionsEmitted | app/src/main/java/com/collegegrad/suggestme/UserInterface/SkillQuestions.kt:527-535 | Every parsed question has at least 4 options, a one-letter answer and no selection yet. |
| SkillQuestions.ParsedQuestionsAppend | app/src/main/java/com/collegegrad/suggestme/UserInterface/SkillQuestions.kt:514-541 | Parsing concatenated block lists concatenates the results, so questions keep block order. |
| SkillQuestions.DroppedBlock | app/src/main/java/com/collegegrad/suggestme/UserInterface/SkillQuestions.kt:527-540 | A block that does not parse contributes nothing: the questions of a + [b] + c are those of a + c. |
| SkillQuestions.AllBlocksParse | app/src/main/java/com/collegegrad/suggestme/UserInterface/SkillQuestions.kt:514-536 | When every block parses, question i comes from block i. |
| SkillQuestions.ParseQuestions | app/src/main/java/com/collegegrad/suggestme/UserInterface/SkillQuestions.kt:507-544 | The loop's result equals the specification, and there are no more questions than non-blank blocks. |
| SkillQuestions.CalculateScore | app/src/main/java/com/collegegrad/suggestme/UserInterface/SkillQuestions.kt:546-548 | The score is at most the question count. It equals the count iff all answers are correct, and is 0 iff none is. |
| SkillQuestions.ScoreCountsCorrect | app/src/main/java/com/collegegrad/suggestme/UserInterface/SkillQuestions.kt:546-548 | The score is the number of questions whose selection equals the correct answer. |
| SkillQuestions.IsAllQuestionsAnswered | app/src/main/java/com/collegegrad/suggestme/UserInterface/SkillQuestions.kt:550-552 | All questions are answered iff the answered count equals the number of questions. This is vacuously true of an empty list. |
| SkillQuestions.AllAnsweredIffCountFull | app/src/main/java/com/collegegrad/suggestme/UserInterface/SkillQuestions.kt:550-552 | All questions are answered iff the number of answered questions is the list size (vacuously true when the list is empty). |
| SkillQuestions.ScoreAtMostAnswered | app/src/main/java/com/collegegrad/suggestme/UserInterface/SkillQuestions.kt:546-552 | The score never exceeds the number of answered questions. |
| SkillQuestions.OptionLetter | app/src/main/java/com/collegegrad/suggestme/UserInterface/SkillQuestions.kt:343 | The letter recorded for option i is the single character 'A' + i. |
| SkillQuestions.LowerCaseAnswerUnreachable | app/src/main/java/com/collegegrad/suggestme/UserInterface/SkillQuestions.kt:343-344 | A lowercase correct letter, which the case-insensitive regex can capture, never equals the letter the UI records for any of the first 32 options. |
| SkillQuestions.UpperCaseAnswerReachable | app/src/main/java/com/collegegrad/suggestme/UserInterface/SkillQuestions.kt:343-344 | An uppercase correct letter within the options is matched by selecting its option. |
| SkillQuestions.ToQuestionResult | app/src/main/java/com/collegegrad/suggestme/UserInterface/SkillQuestions.kt:138-144 | isCorrect holds iff the selection equals the correct answer. A missing selection becomes "". The other fields are copied. |
| SkillQuestions.ToQuestionResults | app/src/main/java/com/collegegrad/suggestme/UserInterface/SkillQuestions.kt:137-145 | One result per question, in order. |
| SkillQuestions.ResultsAgreeWithScore | app/src/main/java/com/collegegrad/suggestme/UserInterface/SkillQuestions.kt:137-145 | The number of results marked correct equals the score. |
| SkillQuestions.ClearSelections | app/src/main/java/com/collegegrad/suggestme/UserInterface/SkillQuestions.kt:164 | Every question keeps its content and loses its selection. |
| SkillQuestions.RetakeResetsProgress | app/src/main/java/com/collegegrad/suggestme/UserInterface/SkillQuestions.kt:164-168 | After clearing, the score and the answered count are 0. A non-empty quiz is then not all answered. |
| SkillQuestions.NothingAnswered | app/src/main/java/com/collegegrad/suggestme/UserInterface/SkillQuestions.kt:550-552 | A quiz without selections has no answered question. |
| SkillQuestions.NextIndex | app/src/main/java/com/collegegrad/suggestme/UserInterface/SkillQuestions.kt:92-94 | The index moves up by one iff it is below size-1, and otherwise stays. An index in range stays in range. |
| SkillQuestions.AssessmentScreen.constructor | app/src/main/java/com/collegegrad/suggestme/UserInterface/SkillQuestions.kt:49-55 | The questions are the parse of the text. Score and index start at 0, not submitted. |
| SkillQuestions.AssessmentScreen.SelectOption | app/src/main/java/com/collegegrad/suggestme/UserInterface/SkillQuestions.kt:257-259 | Only the current question's selection changes, to the option's letter. |
| SkillQuestions.AssessmentScreen.Advance | app/src/main/java/com/collegegrad/suggestme/UserInterface/SkillQuestions.kt:92-94 | Called only when the current question has a selection, since the swipe needs one. The index follows NextIndex, and nothing else changes. |
| SkillQuestions.AssessmentScreen.Submit | app/src/main/java/com/collegegrad/suggestme/UserInterface/SkillQuestions.kt:298-304 | Called only when every question is answered, as the button's `enabled` demands. The stored score is the computed score, which equals the count of correct results. The screen shows results. |
| SkillQuestions.AssessmentScreen.Retake | app/src/main/java/com/collegegrad/suggestme/UserInterface/SkillQuestions.kt:162-169 | Selections are cleared. Score and index are 0, not submitted, and the score of the cleared quiz is 0. |
| SkillQuestions.AssessmentScreen.ResultToSave | app/src/main/java/com/collegegrad/suggestme/UserInterface/SkillQuestions.kt:137-155 | The saved score is the screen's score, and the total is the question count. The saved results are the conversion of the questions, and the number marked correct is the computed score. |
| CourseViewModel.FencedIsLongEnough | app/src/main/java/com/collegegrad/suggestme/viewmodel/CourseViewModel.kt:95-96 | A text that starts with the json fence and ends with a fence has at least 10 characters, so the substring bounds are valid. |
| CourseViewModel.ExtractJson | app/src/main/java/com/collegegrad/suggestme/viewmodel/CourseViewModel.kt:92-108 | The checks go in order, and the first that applies decides: fenced gives the trimmed inside; bracketed gives the text unchanged; otherwise the span from the first '[' to the last ']'. It fails exactly when none applies. |
| CourseViewModel.BracketSearch | app/src/main/java/com/collegegrad/suggestme/viewmodel/CourseViewModel.kt:101-103 | The fallback condition holds iff some '[' is followed later by a ']'. |
| CourseViewModel.FencedReply | app/src/main/java/com/collegegrad/suggestme/viewmodel/CourseViewModel.kt:92-96 | A fenced reply with surrounding whitespace yields its trimmed content. |
| CourseViewModel.EmbeddedArray | app/src/main/java/com/collegegrad/suggestme/viewmodel/CourseViewModel.kt:97-104 | An array with bracket-free prose around it is extracted exactly. |
| CourseViewModel.CoursesFrom | app/src/main/java/com/collegegrad/suggestme/viewmodel/CourseViewModel.kt:110-118 | Succeeds iff every element is an object with name and url. On success, course i holds object i's fields. Otherwise it fails with the first failing element's error. |
| CourseViewModel.CoursesFromReply | app/src/main/java/com/collegegrad/suggestme/viewmodel/CourseViewModel.kt:90-124 | Every failure carries the "Failed to parse course recommendations: " prefix. A reply with no candidate fails with the extraction message. |
| CourseViewModel.AllOrNothing | app/src/main/java/com/collegegrad/suggestme/viewmodel/CourseViewModel.kt:110-123 | A reply yields a list iff a candidate is found, the candidate parses as an array and every element is an object with name and url. The list then has one course per element. Otherwise no list is returned. |
| CourseViewModel.ParseGeminiResponse | app/src/main/java/com/collegegrad/suggestme/viewmodel/CourseViewModel.kt:90-125 | The method computes the reply's specification. |
| CourseViewModel.BuildCourses | app/src/main/java/com/collegegrad/suggestme/viewmodel/CourseViewModel.kt:111-120 | The loop computes CoursesFrom. |
| CourseViewModel.CoursesFromFirstFailure | app/src/main/java/com/collegegrad/suggestme/viewmodel/CourseViewModel.kt:113-116 | The first element that is not a course object decides the error. |
| CourseViewModel.CoursesFromSuccess | app/src/main/java/com/collegegrad/suggestme/viewmodel/CourseViewModel.kt:113-120 | When every element is a course object, the result is exactly the courses built from them. |
| CourseViewModel.LatestIndex | app/src/main/java/com/collegegrad/suggestme/viewmodel/CourseViewModel.kt:57 | Picks an entry with the maximal timestamp, and every entry before it is strictly older. |
| CourseViewModel.LatestAssessment | app/src/main/java/com/collegegrad/suggestme/viewmodel/CourseViewModel.kt:57 | Returns nothing iff there are no results. Otherwise it returns a member with the maximal timestamp. |
| CourseViewModel.LatestIsFirstOfTies | app/src/main/java/com/collegegrad/suggestme/viewmodel/CourseViewModel.kt:57 | On ties, the first entry with the maximal timestamp is taken. |
| CourseViewModel.PromptWithoutAssessment | app/src/main/java/com/collegegrad/suggestme/viewmodel/CourseViewModel.kt:56-88 | With no assessment results and no line break in any prompt line, the prompt is the instruction, the profile lines, "No assessment results available." and the format example. They are joined with "\n" and carry none of the template's indentation. |
| CourseViewModel.TrimIndentOfIndented | app/src/main/java/com/collegegrad/suggestme/viewmodel/CourseViewModel.kt:59-87 | trimIndent of lines indented by twelve spaces, between a blank first and a blank last line, gives the lines back unindented and joined with "\n", when one of them starts with a non-blank. |
| CourseViewModel.LinesOfJoin | app/src/main/java/com/collegegrad/suggestme/viewmodel/CourseViewModel.kt:87 | The lines of a "\n"-joined list are the list, when no element holds a line break. |
| CourseViewModel.MinIndent | app/src/main/java/com/collegegrad/suggestme/viewmodel/CourseViewModel.kt:87 | The indent removed by trimIndent is the least indent of the non-blank lines. It is absent iff every line is blank. |
| CourseViewModel.SuggestOutcome | app/src/main/java/com/collegegrad/suggestme/viewmodel/CourseViewModel.kt:41-49 | A failed model call reports its message. A reply is parsed by the extraction and mapping above. |
| CourseViewModel.CourseRecommendationState.constructor | app/src/main/java/com/collegegrad/suggestme/viewmodel/CourseViewModel.kt:23-30 | Not loading, no recommendations, no error. |
| CourseViewModel.CourseRecommendationState.Publish | app/src/main/java/com/collegegrad/suggestme/viewmodel/CourseViewModel.kt:44-49 | Success replaces the recommendations. Failure keeps them and sets the prefixed error. |
| CourseViewModel.CourseRecommendationState.SuggestCourses | app/src/main/java/com/collegegrad/suggestme/viewmodel/CourseViewModel.kt:32-53 | Sends the built prompt. The error is cleared first. Success replaces the recommendations; failure keeps them and sets "Failed to get course recommendations: " plus the message. Loading is false at the end. |
| Form.SectionEnd | app/src/main/java/com/collegegrad/suggestme/UserInterface/Form.kt:607 | The first position at or after the start where "skill assessment" matches (ASCII case-insensitive) or `$` matches. |
| Form.CourseMatchFrom | app/src/main/java/com/collegegrad/suggestme/UserInterface/Form.kt:607-610 | The leftmost course match. There is no match iff every "course suggestions" header sits at the very end, with nothing after it. |
| Form.QuestionMatchFrom | app/src/main/java/com/collegegrad/suggestme/UserInterface/Form.kt:608-611 | The leftmost question match, under the same rule for the "skill assessment questions" header. |
| Form.SplitSections | app/src/main/java/com/collegegrad/suggestme/UserInterface/Form.kt:601-622 | Without a match, the first section is the whole response and the second is "". With a course match, the first section neither starts nor ends with whitespace. |
| Form.CourseSection | app/src/main/java/com/collegegrad/suggestme/UserInterface/Form.kt:607-614 | With a course match, the first section is the text after the header and its optional colon, up to the first "skill assessment" or `$` after the group's first character, trimmed. |
| Form.NoStopInSection | app/src/main/java/com/collegegrad/suggestme/UserInterface/Form.kt:607 | No "skill assessment" starts between where the lazy group's search begins and where it stops. |
| Form.QuestionSection | app/src/main/java/com/collegegrad/suggestme/UserInterface/Form.kt:608-618 | With a question match, the second section is everything after the header and its optional colon, to the end of input, trimmed. |
| Form.MissingHeaders | app/src/main/java/com/collegegrad/suggestme/UserInterface/Form.kt:603-619 | A response with no header keeps both defaults. |
| Form.SectionsRoundTrip | app/src/main/java/com/collegegrad/suggestme/UserInterface/Form.kt:601-622 | Splitting "Course Suggestions:" + c + "Skill Assessment Questions:" + q gives back trim(c) and trim(q) when c contains no "skill assessment". |
| Form.LevelNamed | app/src/main/java/com/collegegrad/suggestme/UserInterface/Form.kt:36-38 | Reading a name gives a level iff some level has that name, and then it is that level. |
| Form.SkillEntries | app/src/main/java/com/collegegrad/suggestme/UserInterface/Form.kt:468-470 | One "name:LEVEL" entry per skill, in list order. |
| Form.SplitJoin | app/src/main/java/com/collegegrad/suggestme/UserInterface/Form.kt:468 | Splitting the ", "-joined entries gives the entries back when none contains ','. |
| Form.ReadSkillEntryOf | app/src/main/java/com/collegegrad/suggestme/UserInterface/Form.kt:469 | An entry reads back as its skill's name and level when the name has no ':'. |
| Form.FormatSkills | app/src/main/java/com/collegegrad/suggestme/UserInterface/Form.kt:468-470 | The submitted skills text is empty iff there are no skills. It reads back as every skill's name and level, in order, when names contain no ',' or ':'. |
| Form.EntriesRoundTrip | app/src/main/java/com/collegegrad/suggestme/UserInterface/Form.kt:468-470 | The ", "-joined entries are empty iff there are no skills, and read back as each skill's name and level, in order, when names contain no ',' or ':'. |
| Form.Without | app/src/main/java/com/collegegrad/suggestme/UserInterface/Form.kt:376 | Drops every entry equal to the removed one and keeps the rest. The multiset is unchanged apart from that element. |
| Form.WithoutAppend | app/src/main/java/com/collegegrad/suggestme/UserInterface/Form.kt:376 | Removal distributes over concatenation, so the remaining entries keep their order. |
| Form.WithoutNoDuplicates | app/src/main/java/com/collegegrad/suggestme/UserInterface/Form.kt:410-414 | Removal keeps a set duplicate-free. |
| Form.WithoutAbsent | app/src/main/java/com/collegegrad/suggestme/UserInterface/Form.kt:411 | Removing an absent element changes nothing. |
| Form.Toggle | app/src/main/java/com/collegegrad/suggestme/UserInterface/Form.kt:410-414 | Membership flips for the clicked element, and every other element keeps its membership. |
| Form.ToggleNoDuplicates | app/src/main/java/com/collegegrad/suggestme/UserInterface/Form.kt:446-450 | A toggle keeps the selection duplicate-free. |
| Form.ToggleTwice | app/src/main/java/com/collegegrad/suggestme/UserInterface/Form.kt:410-414 | Toggling twice restores the set. When the element was absent, it restores the same sequence. |
| Form.SkillForm.constructor | app/src/main/java/com/collegegrad/suggestme/UserInterface/Form.kt:46-51 | Everything empty, no picked skill, not in custom mode. |
| Form.SkillForm.ChooseFromDropdown | app/src/main/java/com/collegegrad/suggestme/UserInterface/Form.kt:273-282 | "Other" enters custom mode with empty text and keeps the picked skill. Any other entry picks that skill at beginner level and leaves custom mode. |
| Form.SkillForm.EditSkillText | app/src/main/java/com/collegegrad/suggestme/UserInterface/Form.kt:244-248 | The skill text changes only in custom mode. |
| Form.SkillForm.SelectLevel | app/src/main/java/com/collegegrad/suggestme/UserInterface/Form.kt:305-309 | Changes the picked skill's level, if a skill is picked. |
| Form.SkillForm.PendingSkill | app/src/main/java/com/collegegrad/suggestme/UserInterface/Form.kt:316-330 | The skill a click appends is a listed skill: the custom text as a custom beginner skill, or the picked skill. |
| Form.SkillForm.AddSkillEnabled | app/src/main/java/com/collegegrad/suggestme/UserInterface/Form.kt:331 | The "Add Skill" button is enabled iff a click has a skill to append. |
| Form.SkillForm.AddSkill | app/src/main/java/com/collegegrad/suggestme/UserInterface/Form.kt:316-330 | Non-blank custom text is appended as a custom beginner skill, and custom mode ends. Otherwise a picked skill is appended and the pick cleared. When the button is disabled, nothing changes. |
| Form.SkillForm.RemoveSkill | app/src/main/java/com/collegegrad/suggestme/UserInterface/Form.kt:374-377 | The list becomes the filtered list. |
| Form.SkillForm.ToggleInterest | app/src/main/java/com/collegegrad/suggestme/UserInterface/Form.kt:409-415 | The interests become the toggled set. The set stays duplicate-free and drawn from the offered interests. |
| Form.SkillForm.ToggleEndGoal | app/src/main/java/com/collegegrad/suggestme/UserInterface/Form.kt:445-451 | The same for end goals. |
| Form.SkillForm.EditUserName | app/src/main/java/com/collegegrad/suggestme/UserInterface/Form.kt:218 | Only the name changes. |
| Form.SkillForm.Submission | app/src/main/java/com/collegegrad/suggestme/UserInterface/Form.kt:468-474 | The submitted goals and interests are the selected names, in selection order. |
| Form.SkillForm.SubmitEnabled | app/src/main/java/com/collegegrad/suggestme/UserInterface/Form.kt:490-494 | Submit is enabled iff the name is non-blank, nothing is loading, and the submitted skills text, goals and interests are all non-empty. |

## Left out

- All Compose UI: layouts, dialogs, drop-down visibility (`showSkillDropdown`), the swipe and drag animation state, the float percentage and grade thresholds of the result screen.
- Firestore reads and writes (`UserViewModel`). The saved assessment is modelled as the value handed over (`ResultToSave`).
- Gemini calls and coroutines. The reply text (or the failure message of the call) is a parameter.
- The JSON grammar of `org.json`. An oracle `string -> JsonArrayParse` stands for `JSONArray(...)`. Elements are objects with optional string fields, or non-objects. A missing field reports "No value for" plus the key. The coercion of non-string values by `getString` is not modelled.
- The Form.kt prompt for course suggestions and questions, and its fallback texts (lines 541-597). These are Gemini I/O and string templates with nothing to prove.
- CourseViewModel.BuildPrompt: the final text is stated only without an assessment (PromptWithoutAssessment). With an assessment, the interpolated block adds lines of its own, and no lemma states the text trimIndent then produces.
- PromptWithoutAssessment: takes as a precondition that no prompt line holds a line break. This is a real condition on the four profile fields. For the fixed lines it is true, but the verifier cannot inspect string literals as long as the instruction.
- SkillQuestions.OptionLetter: letters past U+D7FF, which would need more than 55,000 options, are not modelled.
- `MCQuestion` objects are shared between the list and the screen. The model keeps them as values in one sequence, so aliasing is not modelled.
- The `try/catch` around a block in `parseQuestions` catches nothing. No modelled step can throw, so skipping is only the "answer or options missing" path.
- A null exception message would be printed as "null". The model carries the message as a string.
- FormatSkills: the read-back does not cover names with ',' or ':', because the text is then ambiguous. The custom flag is not kept in the text.
- QuizBlocks: covers replies whose markers are "Question " + digits + ": ". Other spellings the pattern accepts are covered only by MarkerEnd.

Three facts about the code that the model keeps:
- `parseQuestions` keeps every option match, not only the first four;
- the stored correct answer is the captured letter string, not an option index, and it may be lowercase;
- course names and URLs are not checked for emptiness.
