# Quiz service model

A Dafny model of the quiz service's request handlers in `src/app.py`. The
service stores multiple-choice questions, serves random quizzes drawn from
them, and checks submitted answers. The database is replaced by an immutable
`seq<Question>` (`Records.Store`), and each handler becomes a pure function
from the store and the request's parameters to a status code and a JSON body
(`Replies.Response`).

- `Records`: the `Question` and option tables (`AnswerOption`, named so it
  does not clash with the optional-value type), the primary-key invariant
  `WellFormed`, and lookup by id.
- `Insertion`: `POST /questions`. The submitted list of questions is
  appended in order. The ids the database would hand out are an input
  (`NewIds`).
- `QuizGeneration`: `GET /quiz`. The random draw is an input: a sequence of
  distinct store positions whose length is the capped count.
- `Verification`: `POST /verify`, both as written and with the null-selection
  defect (see Findings) corrected.
- `Search`, `Wrappers`: one generic first-match search and the optional-value
  type.

Where the handlers' docstrings disagree with their code, the model follows
the code:
- `add_question` reads a list of question objects, not one object. It never
  reads the `answer` field (`src/app.py:41-56` against `src/app.py:60-66`).
  `Insertion.AnswerFieldIgnored` states that the field has no effect.
- `verify_answer` compares `selected_option_id` with option database ids. It
  is not a 0-based index into the options (`src/app.py:125` against
  `src/app.py:135-137`).

## Model

| member | source | states |
|---|---|---|
| Search.FirstIndex | src/app.py:135 | the result is the first position whose element satisfies the predicate, or None exactly when no element does |
| Records.FindQuestion | src/app.py:131 | lookup by id gives None exactly when no stored question has the id; otherwise it gives a stored question with that id |
| Records.FindStored | src/app.py:131 | when question ids are distinct, looking up any stored question's id returns that very question |
| Insertion.NewOptions | src/app.py:64-67 | one option row per submitted option, in order, with the given id and the text and `is_correct` copied from the input |
| Insertion.NewQuestion | src/app.py:61-66 | the new question has the given id and the submitted text, and one option per submitted option in order, each with its given id and the submitted text and `is_correct` |
| Insertion.Append | src/app.py:60-70 | the old store is an unchanged prefix, followed by one new question per input element in input order |
| Insertion.AddQuestions | src/app.py:58-71 | the reply is 201 "Question added successfully"; existing questions are unchanged; the i-th new question has the i-th given id, the input's text, and its options in order with `is_correct` copied |
| Insertion.AddPreservesWellFormed | src/app.py:14-23 | inserting with fresh ids keeps question ids and option ids distinct across the store |
| Insertion.AddedQuestionsAreFound | src/app.py:60-70 | after insertion every old question is still found by its id, and every new question is found by the id it was given |
| Insertion.AnswerFieldIgnored | src/app.py:60-66 | dropping every `answer` field leaves the new store and the reply unchanged |
| QuizGeneration.QuizSize | src/app.py:102 | the count is the minimum of the requested count (5 when absent) and the number of stored questions |
| QuizGeneration.ProjectOptions | src/app.py:105 | the quiz options list every option in order, with only its id and text |
| QuizGeneration.Project | src/app.py:105 | a quiz entry has its question's id and text and lists every option in order as just its id and text |
| QuizGeneration.Select | src/app.py:103-105 | one quiz entry per drawn position, in draw order, each the projection of the question drawn there |
| QuizGeneration.GenerateQuiz | src/app.py:98-106 | the reply is 404 "No questions available" exactly when the store is empty; otherwise it is 200 with min(requested or 5, stored) entries, the i-th being the i-th drawn question's projection |
| QuizGeneration.OversizedRequestIsCapped | src/app.py:102 | a request for at least as many questions as are stored succeeds, with one entry per stored question |
| QuizGeneration.QuizDrawsWithoutReplacement | src/app.py:103 | every quiz entry is the projection of a stored question, and if question ids are distinct then no two entries share an id |
| QuizGeneration.ProjectionForgetsOnlyFlags | src/app.py:105 | two questions have equal projections exactly when they agree on all ids and texts, options included, and differ at most in `is_correct` |
| QuizGeneration.QuizHidesCorrectness | src/app.py:105 | stores that differ only in `is_correct` flags give identical quiz responses for the same draw |
| QuizGeneration.FullSampleCovers | src/app.py:103 | a draw of n distinct positions below n contains every position |
| QuizGeneration.FullQuizShowsEveryQuestion | src/app.py:102-105 | if the request covers the whole store, every stored question appears in the quiz |
| Verification.CorrectOptionId | src/app.py:135 | None exactly when no option is flagged correct; otherwise it is the id of the first flagged option |
| Verification.VerifyAnswerAsWritten | src/app.py:127-140 | 404 "Question not found" exactly when no question has the id; otherwise 200, always reporting the correct option id, with `is_correct` true exactly when the selection equals it (null equal to none) |
| Verification.NullSelectionAcceptedAsWritten | src/app.py:137 | as written, a null selection on a found question with no flagged option is reported as correct |
| Verification.NullSelectionExample | src/app.py:137 | a one-question store with no flagged option accepts a null selection |
| Verification.VerifyAnswer | src/app.py:127-140 | 404 "Question not found" exactly when no question has the id; otherwise 200 with the correct option id, and `is_correct` true exactly when the selection is the id of the first flagged option |
| Verification.NoFlaggedOptionNeverCorrect | src/app.py:135-140 | if no option is flagged, every selection is judged incorrect and the reported correct id is none |
| Verification.CorrectedAgreesOnIntegers | src/app.py:137 | for an integer selection the corrected and as-written handlers agree; on a null selection they differ exactly when the question has no flagged option |
| Verification.AddedFlagsDecideVerification | src/app.py:135-137 | after a fresh-id insertion, selecting the id given to the k-th submitted option is correct exactly when that option is the first one submitted with `is_correct` set |

## Left out

- HTTP plumbing is not modelled. This covers Flask setup, routing, `jsonify`, request parsing and the `/` greeting route (`src/app.py:1-9`, `src/app.py:31-33`). A handler's inputs are its parsed parameters.
- Persistence is not modelled: table creation, sessions and commits. The store is a sequence of questions and their options in insertion order. The lazy `options` relationship is assumed to return options in insertion order.
- Auto-increment id assignment is not modelled. Ids are inputs (`Insertion.NewIds`). Their freshness is a precondition only of the lemmas that need it.
- The randomness of `random.sample` is not modelled. The draw is an input sequence of distinct positions with the capped length.
- A negative `num_questions` is outside the model. On a non-empty store it makes `random.sample` raise (an HTTP 500). On an empty store the 404 at `src/app.py:99-100` comes first, and the model cannot express such a request. `requested` is typed `Option<nat>`.
- A `num_questions` that is not an integer literal is outside the model. Examples are `abc`, `2.5`, `1e3` and the empty string. On a non-empty store `int(...)` raises. On an empty store the 404 at `src/app.py:99-100` comes first, and the model cannot express such a request.
- A missing key anywhere in a request body is outside the model. Examples are `text` and `is_correct` in a submitted question (`src/app.py:61`, `src/app.py:66`), and `question_id` and `selected_option_id` in a verification (`src/app.py:128-129`). A missing key raises an exception (an HTTP 500), and exceptions are not modelled.
- Verification.VerifyAnswerAsWritten: only integer and null selections are modelled. `selected_option_id` is never converted (`src/app.py:129`), and Python `==` at `src/app.py:137` makes a float such as `2.0` match option id 2 and `true` match option id 1. A string such as `"2"` matches no id. All of these get a 200 reply when the question is found.
- Verification.VerifyAnswerAsWritten: only integer question ids are modelled, and so also for `Verification.VerifyAnswer`. `question_id` is passed unconverted to the primary-key lookup (`src/app.py:128-131`), where SQLite's integer column affinity would let values such as `"1"`, `1.0` or `true` find question 1, and `null` would find nothing and give the 404.
- Records.FindQuestion: only question ids in SQLite's signed 64-bit range, -2^63..2^63-1, are modelled. For an id outside that range the driver would raise when binding it at the lookup (`src/app.py:131`), an HTTP 500. The model instead returns `None` for such an id.
- Verification.VerifyAnswerAsWritten: a `question_id` outside -2^63..2^63-1 would raise at the lookup (`src/app.py:131`), an HTTP 500. The model instead gives the 404 "Question not found".
- Verification.VerifyAnswer: like the handler as written, it gives the 404 for a `question_id` outside -2^63..2^63-1, where the source would raise at the lookup (`src/app.py:131`).
- Partial commits are not modelled. The handler commits after each question, so a failure part-way through the list leaves the earlier questions stored. Since failures are outside the model, insertion always completes.
- The column length limits (255 and 100 characters) are not modelled. SQLite does not enforce them.

## Findings

| source | as written | input that shows it | evidently intended | confidence | as-written member | corrected member |
|---|---|---|---|---|---|---|
| src/app.py:135-140 | `selected_option_id == correct_option_id`, where `correct_option_id` is `None` when no option is flagged | `{"question_id": 1, "selected_option_id": null}` for a stored question 1 with no option flagged correct returns `is_correct: true` | a selection is correct only if it names the question's correct option, so a question with no flagged option accepts nothing | medium, not executed | Verification.VerifyAnswerAsWritten | Verification.VerifyAnswer |
