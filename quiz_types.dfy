/**
 * The quiz item the service returns and the page renders (types.ts).
 * Field names follow Dafny style; on the wire they are Text, Options,
 * CorrectAnswer, Category and Difficulty.
 */
module QuizTypes {

  datatype Difficulty = Easy | Medium | Hard

  /**
   * One generated question. Nothing checks these fields at run time: they
   * are whatever the parsed JSON holds, taken as a question by a cast.
   */
  datatype Question = Question(
    text: string,
    options: seq<string>,
    correctAnswer: string,
    category: string,
    difficulty: Difficulty)

  /** The wire names of the fields, in declaration order. */
  const QuestionFieldNames: seq<string> := ["Text", "Options", "CorrectAnswer", "Category", "Difficulty"]
}
