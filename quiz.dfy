/** The quiz document: what the model returns, plus the fields the service fills in itself. */
module QuizModel {
  import opened Wrappers
  import opened QuestionModel

  /** `generatedAt` is kept as an opaque instant (milliseconds); its text format is not modelled. */
  datatype Quiz = Quiz(
    quizTitle: Option<string>,
    articleId: Option<string>,
    generatedAt: Option<int>,
    modelUsed: Option<string>,
    tokenEstimate: Option<int>,
    questions: Option<seq<Question>>,
    apiProvider: Option<string>,
    success: bool,
    errorMessage: Option<string>)

  /** `new Quiz()`: nothing set except the two field initialisers. */
  function NewQuiz(): (q: Quiz)
    ensures q.success && q.errorMessage.None?
    ensures q.apiProvider == Some("Groq") && q.questions.None?
    ensures q.modelUsed.None? && q.tokenEstimate.None? && q.articleId.None?
  {
    Quiz(None, None, None, None, None, None, Some("Groq"), true, None)
  }

  /** The failure value the service returns: a fresh Quiz with `success` cleared and a message. */
  function FailedQuiz(message: string): (q: Quiz)
    ensures !q.success && q.errorMessage == Some(message) && q.questions.None?
    ensures q == NewQuiz().(success := false, errorMessage := Some(message))
  {
    NewQuiz().(success := false, errorMessage := Some(message))
  }

  /** `getQuestionCount()`: 0 for a null list, otherwise its size. */
  function GetQuestionCount(q: Quiz): (n: nat)
    ensures q.questions.None? ==> n == 0
    ensures q.questions.Some? ==> n == |q.questions.value|
  {
    match q.questions
    case None => 0
    case Some(qs) => |qs|
  }

  /** A failed quiz never reports questions. */
  lemma FailedQuizHasNoQuestions(message: string)
    ensures GetQuestionCount(FailedQuiz(message)) == 0
    ensures FailedQuiz(message).apiProvider == Some("Groq")
  {
  }
}
