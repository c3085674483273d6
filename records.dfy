/** The app's plain record types (Kotlin data classes without behaviour). */
module Records {

  /** One course suggested by the generative model. */
  datatype CourseRecommendation = CourseRecommendation(name: string, url: string)

  /** One answered question as stored with an assessment. An unanswered
      question is stored with the empty string as its selected answer. */
  datatype QuestionResult = QuestionResult(
    question: string,
    selectedAnswer: string,
    correctAnswer: string,
    isCorrect: bool,
    options: seq<string>)

  /** One completed assessment; `timestamp` is milliseconds since the epoch
      (a Kotlin Long). */
  datatype AssessmentResult = AssessmentResult(
    userId: string,
    timestamp: int,
    score: int,
    totalQuestions: int,
    questions: seq<QuestionResult>)

  /** A user profile; `skills` holds the serialised "name:LEVEL, ..." text. */
  datatype UserData = UserData(
    id: string,
    name: string,
    skills: string,
    experience: string,
    yourEndGoal: seq<string>,
    interests: seq<string>,
    createdDate: int)
}
