/** The `POST /verify` handler: is the selected option the question's
    correct one? */
module Verification {
  import opened Wrappers
  import opened Records
  import opened Replies
  import Search
  import Insertion

  const NotFoundMessage := "Question not found"

  /** Position `k` holds the first option flagged correct. */
  predicate IsFirstCorrect(options: seq<AnswerOption>, k: int) {
    && 0 <= k < |options|
    && options[k].isCorrect
    && forall j :: 0 <= j < k ==> !options[j].isCorrect
  }

  /** The database id of the first option flagged correct, or `None` when no
      option is flagged. */
  function CorrectOptionId(q: Question): (r: Option<int>)
    ensures r.None? <==> forall k :: 0 <= k < |q.options| ==> !q.options[k].isCorrect
    ensures r.Some? ==> exists k :: IsFirstCorrect(q.options, k) && q.options[k].id == r.value
  {
    match Search.FirstIndex(q.options, (o: AnswerOption) => o.isCorrect)
    case None => None
    case Some(k) =>
      assert IsFirstCorrect(q.options, k);
      Some(q.options[k].id)
  }

  /** The handler as written: `selected` is the JSON value of
      `selected_option_id` (`None` for `null`), compared for equality with the
      correct option's id, which is itself `None` when no option is flagged. */
  function VerifyAnswerAsWritten(store: Store, questionId: int, selected: Option<int>): (r: Response)
    ensures (forall j :: 0 <= j < |store| ==> store[j].id != questionId)
        <==> r == Response(NotFound, Message(NotFoundMessage))
    ensures FindQuestion(store, questionId).Some? ==>
      var q := FindQuestion(store, questionId).value;
      && r.status == Ok && r.body.Verdict?
      && r.body.correctOptionId == CorrectOptionId(q)
      && (r.body.isCorrect <==> selected == CorrectOptionId(q))
  {
    match FindQuestion(store, questionId)
    case None => Response(NotFound, Message(NotFoundMessage))
    case Some(q) =>
      var correct := CorrectOptionId(q);
      Response(Ok, Verdict(selected == correct, correct))
  }

  /** As written, a `null` selection is judged correct for a question with no
      option flagged correct, since `None == None`. */
  lemma NullSelectionAcceptedAsWritten(store: Store, questionId: int)
    requires FindQuestion(store, questionId).Some?
    requires forall k :: 0 <= k < |FindQuestion(store, questionId).value.options| ==>
      !FindQuestion(store, questionId).value.options[k].isCorrect
    ensures VerifyAnswerAsWritten(store, questionId, None) == Response(Ok, Verdict(true, None))
  {
  }

  /** A concrete store showing the null selection accepted. */
  lemma NullSelectionExample()
    ensures VerifyAnswerAsWritten([Question(1, "Q?", [AnswerOption(1, "A", false)])], 1, None).body.isCorrect
  {
  }

  /** `POST /verify` with a selection counted correct only when it names an
      option: correct exactly when `selected` is the id of the question's
      first option flagged correct. */
  function VerifyAnswer(store: Store, questionId: int, selected: Option<int>): (r: Response)
    ensures (forall j :: 0 <= j < |store| ==> store[j].id != questionId)
        <==> r == Response(NotFound, Message(NotFoundMessage))
    ensures FindQuestion(store, questionId).Some? ==>
      var q := FindQuestion(store, questionId).value;
      && r.status == Ok && r.body.Verdict?
      && r.body.correctOptionId == CorrectOptionId(q)
      && (r.body.isCorrect <==>
            selected.Some? && exists k :: IsFirstCorrect(q.options, k) && q.options[k].id == selected.value)
  {
    match FindQuestion(store, questionId)
    case None => Response(NotFound, Message(NotFoundMessage))
    case Some(q) =>
      var correct := CorrectOptionId(q);
      Response(Ok, Verdict(selected.Some? && selected == correct, correct))
  }

  /** With no option flagged correct, no selection is ever judged correct. */
  lemma NoFlaggedOptionNeverCorrect(store: Store, questionId: int, selected: Option<int>)
    requires FindQuestion(store, questionId).Some?
    requires forall k :: 0 <= k < |FindQuestion(store, questionId).value.options| ==>
      !FindQuestion(store, questionId).value.options[k].isCorrect
    ensures VerifyAnswer(store, questionId, selected) == Response(Ok, Verdict(false, None))
  {
  }

  /** For every integer selection the corrected handler answers as the
      handler as written does; they differ only on a `null` selection. */
  lemma CorrectedAgreesOnIntegers(store: Store, questionId: int, selected: Option<int>)
    ensures selected.Some? ==>
      VerifyAnswer(store, questionId, selected) == VerifyAnswerAsWritten(store, questionId, selected)
    ensures selected.None? && FindQuestion(store, questionId).Some? ==>
      (VerifyAnswer(store, questionId, selected) != VerifyAnswerAsWritten(store, questionId, selected)
       <==> CorrectOptionId(FindQuestion(store, questionId).value).None?)
  {
  }

  /** The flags submitted with a question decide its verification: after a
      well-formed insertion, selecting the id given to the `k`-th submitted
      option of the `i`-th question is correct exactly when that option is
      the first one submitted with `is_correct` set. */
  lemma AddedFlagsDecideVerification(
    store: Store, inputs: seq<Insertion.QuestionInput>, ids: seq<Insertion.NewIds>, i: int, k: int)
    requires WellFormed(store)
    requires Insertion.IdsFit(inputs, ids)
    requires Insertion.FreshIds(store, ids)
    requires 0 <= i < |inputs| && 0 <= k < |inputs[i].options|
    ensures var s := Insertion.AddQuestions(store, inputs, ids).store;
      var r := VerifyAnswer(s, ids[i].questionId, Some(ids[i].optionIds[k]));
      && r.status == Ok
      && (r.body.isCorrect <==>
            inputs[i].options[k].isCorrect && forall j :: 0 <= j < k ==> !inputs[i].options[j].isCorrect)
  {
    var s := Insertion.AddQuestions(store, inputs, ids).store;
    Insertion.AddedQuestionsAreFound(store, inputs, ids);
    Insertion.AddPreservesWellFormed(store, inputs, ids);
    var q := s[|store| + i];
    assert FindQuestion(s, ids[i].questionId) == Some(q);
    var r := VerifyAnswer(s, ids[i].questionId, Some(ids[i].optionIds[k]));
    assert q.options[k].id == ids[i].optionIds[k];
    forall j | 0 <= j < |q.options|
      ensures q.options[j].isCorrect == inputs[i].options[j].isCorrect
    {
    }
  }
}
