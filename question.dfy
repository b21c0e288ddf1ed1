/** One multiple-choice question of a quiz, as Jackson fills it from the model's JSON. */
module QuestionModel {
  import opened Wrappers
  import opened JavaStrings

  /** Every field may be null. `options` maps a letter ("A".."D") to the option text;
      a JSON null value is a present key with value `None`. */
  datatype Question = Question(
    id: Option<int>,
    question: Option<string>,
    options: Option<map<string, Option<string>>>,
    correctAnswer: Option<string>,
    explanation: Option<string>,
    difficulty: Option<string>)

  /** `getOption(letter)`: looks the upper-cased letter up in the options; null when there are
      no options or no such key. The letter itself must not be null (Java would throw). */
  function GetOption(q: Question, letter: string): (r: Option<string>)
    ensures q.options.None? ==> r.None?
    ensures q.options.Some? && ToUpper(letter) !in q.options.value ==> r.None?
    ensures r.Some? ==> ToUpper(letter) in q.options.value && q.options.value[ToUpper(letter)] == r
    ensures q.options.Some? && ToUpper(letter) in q.options.value ==>
      r == q.options.value[ToUpper(letter)]
  {
    match q.options
    case None => None
    case Some(m) => if ToUpper(letter) in m then m[ToUpper(letter)] else None
  }

  /** The letter is looked up without regard to case: "b", "B" give the same option. */
  lemma OptionLetterIgnoresCase(q: Question, letter: string)
    ensures GetOption(q, letter) == GetOption(q, ToUpper(letter))
    ensures GetOption(q, letter) == GetOption(q, ToLower(letter))
  {
    assert ToUpper(ToUpper(letter)) == ToUpper(letter);
    assert ToUpper(ToLower(letter)) == ToUpper(letter);
  }

  /** `isCorrect(answer)`: false when either side is null, otherwise a case-insensitive
      comparison of the answer with the correct letter. */
  function IsCorrect(q: Question, answer: Option<string>): (b: bool)
    ensures q.correctAnswer.None? || answer.None? ==> !b
    ensures q.correctAnswer.Some? && answer.Some? ==>
      (b <==> ToUpper(q.correctAnswer.value) == ToUpper(answer.value))
  {
    if q.correctAnswer.Some? && answer.Some? then
      CaseInsensitive(q.correctAnswer.value, answer.value);
      EqualsIgnoreCase(q.correctAnswer.value, answer.value)
    else false
  }

  /** With correct answer "C", both "c" and "C" are accepted; in general the answer's case never
      matters. */
  lemma {:induction false} AnswerIgnoresCase(q: Question, answer: string)
    ensures IsCorrect(q, Some(answer)) == IsCorrect(q, Some(ToLower(answer)))
    ensures IsCorrect(q, Some(answer)) == IsCorrect(q, Some(ToUpper(answer)))
  {
    if q.correctAnswer.Some? {
      CaseInsensitive(q.correctAnswer.value, answer);
    }
  }

  lemma CorrectLetterExample(q: Question)
    requires q.correctAnswer == Some("C")
    ensures IsCorrect(q, Some("c")) && IsCorrect(q, Some("C"))
    ensures !IsCorrect(q, Some("D")) && !IsCorrect(q, None)
  {
    assert ToUpper("C")[0] == 'C' && ToUpper("D")[0] == 'D';
  }
}
