/** The HTTP responses of the handlers: a status code and a JSON body. */
module Replies {
  import opened Wrappers

  const Ok := 200
  const Created := 201
  const NotFound := 404

  /** A quiz entry's option: `{id, text}`, with no correctness flag. */
  datatype QuizOption = QuizOption(id: int, text: string)

  /** A quiz entry: `{id, text, options}`. */
  datatype QuizQuestion = QuizQuestion(id: int, text: string, options: seq<QuizOption>)

  /** The JSON bodies the handlers produce. */
  datatype Body =
    | Message(text: string)
    | Quiz(questions: seq<QuizQuestion>)
    | Verdict(isCorrect: bool, correctOptionId: Option<int>)

  datatype Response = Response(status: int, body: Body)
}
