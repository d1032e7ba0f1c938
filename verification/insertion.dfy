/** The `POST /questions` handler: every submitted question, with its
    options, is appended to the store. */
module Insertion {
  import opened Wrappers
  import opened Records
  import opened Replies

  const AddedMessage := "Question added successfully"

  /** One submitted option: its text and its `is_correct` flag. */
  datatype OptionInput = OptionInput(text: string, isCorrect: bool)

  /** One element of the submitted list. `answer` is accepted but never read;
      a missing `options` key is an empty sequence. */
  datatype QuestionInput = QuestionInput(text: string, answer: Option<int>, options: seq<OptionInput>)

  /** The ids the database hands out to one new question and to its options,
      in the order the options were submitted. */
  datatype NewIds = NewIds(questionId: int, optionIds: seq<int>)

  /** The state after the handler and its reply. */
  datatype Added = Added(store: Store, response: Response)

  /** There is one id for every new question and for every new option. */
  predicate IdsFit(inputs: seq<QuestionInput>, ids: seq<NewIds>) {
    |ids| == |inputs| &&
    forall i :: 0 <= i < |inputs| ==> |ids[i].optionIds| == |inputs[i].options|
  }

  /** The ids handed out are unused in `store` and pairwise distinct, as the
      database's auto-increment keys are. */
  predicate FreshIds(store: Store, ids: seq<NewIds>) {
    && (forall i, j :: 0 <= i < j < |ids| ==> ids[i].questionId != ids[j].questionId)
    && (forall i, q :: 0 <= i < |ids| && 0 <= q < |store| ==> ids[i].questionId != store[q].id)
    && (forall i, k, j, l ::
          0 <= i < |ids| && 0 <= k < |ids[i].optionIds| &&
          0 <= j < |ids| && 0 <= l < |ids[j].optionIds| &&
          (i != j || k != l)
          ==> ids[i].optionIds[k] != ids[j].optionIds[l])
    && (forall i, k, q, l ::
          0 <= i < |ids| && 0 <= k < |ids[i].optionIds| &&
          0 <= q < |store| && 0 <= l < |store[q].options|
          ==> ids[i].optionIds[k] != store[q].options[l].id)
  }

  /** The option rows created for one question, one per submitted option. */
  function NewOptions(inputs: seq<OptionInput>, ids: seq<int>): (r: seq<AnswerOption>)
    requires |ids| == |inputs|
    ensures |r| == |inputs|
    ensures forall k :: 0 <= k < |r| ==>
      r[k].id == ids[k] && r[k].text == inputs[k].text && r[k].isCorrect == inputs[k].isCorrect
  {
    if |inputs| == 0 then []
    else [AnswerOption(ids[0], inputs[0].text, inputs[0].isCorrect)] + NewOptions(inputs[1..], ids[1..])
  }

  /** The question row created for one submitted question. */
  function NewQuestion(input: QuestionInput, ids: NewIds): (r: Question)
    requires |ids.optionIds| == |input.options|
    ensures r.id == ids.questionId && r.text == input.text
    ensures |r.options| == |input.options|
    ensures forall k :: 0 <= k < |r.options| ==>
      r.options[k] == AnswerOption(ids.optionIds[k], input.options[k].text, input.options[k].isCorrect)
  {
    Question(ids.questionId, input.text, NewOptions(input.options, ids.optionIds))
  }

  /** Appends the submitted questions one after another, as the handler's loop
      adds and commits them. */
  function Append(store: Store, inputs: seq<QuestionInput>, ids: seq<NewIds>): (r: Store)
    requires IdsFit(inputs, ids)
    ensures |r| == |store| + |inputs|
    ensures r[..|store|] == store
    ensures forall i :: 0 <= i < |inputs| ==> r[|store| + i] == NewQuestion(inputs[i], ids[i])
    decreases |inputs|
  {
    if |inputs| == 0 then store
    else
      var r := Append(store + [NewQuestion(inputs[0], ids[0])], inputs[1..], ids[1..]);
      assert r[..|store|] == (r[..|store| + 1])[..|store|];
      r
  }

  /** `POST /questions`: append every submitted question and reply 201. */
  function AddQuestions(store: Store, inputs: seq<QuestionInput>, ids: seq<NewIds>): (r: Added)
    requires IdsFit(inputs, ids)
    ensures r.response == Response(Created, Message(AddedMessage))
    ensures |r.store| == |store| + |inputs|
    ensures forall j :: 0 <= j < |store| ==> r.store[j] == store[j]
    ensures forall i :: 0 <= i < |inputs| ==>
      var q := r.store[|store| + i];
      && q.id == ids[i].questionId
      && q.text == inputs[i].text
      && |q.options| == |inputs[i].options|
      && forall k :: 0 <= k < |q.options| ==>
           q.options[k] == AnswerOption(ids[i].optionIds[k], inputs[i].options[k].text, inputs[i].options[k].isCorrect)
  {
    var s := Append(store, inputs, ids);
    assert forall j :: 0 <= j < |store| ==> s[j] == s[..|store|][j];
    Added(s, Response(Created, Message(AddedMessage)))
  }

  /** Adding questions whose ids are fresh keeps the primary keys distinct. */
  lemma AddPreservesWellFormed(store: Store, inputs: seq<QuestionInput>, ids: seq<NewIds>)
    requires WellFormed(store)
    requires IdsFit(inputs, ids)
    requires FreshIds(store, ids)
    ensures WellFormed(AddQuestions(store, inputs, ids).store)
  {
    var s := AddQuestions(store, inputs, ids).store;
    var n := |store|;
    forall i, j | 0 <= i < j < |s|
      ensures s[i].id != s[j].id
    {
      if j < n {
        assert s[i] == store[i] && s[j] == store[j];
      } else if i < n {
        assert s[j].id == ids[j - n].questionId;
      } else {
        assert s[i].id == ids[i - n].questionId && s[j].id == ids[j - n].questionId;
      }
    }
    forall i, k, j, l |
      0 <= i < |s| && 0 <= k < |s[i].options| &&
      0 <= j < |s| && 0 <= l < |s[j].options| &&
      (i != j || k != l)
      ensures s[i].options[k].id != s[j].options[l].id
    {
      if i < n && j < n {
        assert s[i] == store[i] && s[j] == store[j];
      } else if i < n {
        assert s[i] == store[i];
        assert s[j].options[l].id == ids[j - n].optionIds[l];
      } else if j < n {
        assert s[j] == store[j];
        assert s[i].options[k].id == ids[i - n].optionIds[k];
      } else {
        assert s[i].options[k].id == ids[i - n].optionIds[k];
        assert s[j].options[l].id == ids[j - n].optionIds[l];
      }
    }
  }

  /** After a well-formed insertion every old question is still found under
      its id, and every new question is found under the id it was given. */
  lemma AddedQuestionsAreFound(store: Store, inputs: seq<QuestionInput>, ids: seq<NewIds>)
    requires WellFormed(store)
    requires IdsFit(inputs, ids)
    requires FreshIds(store, ids)
    ensures forall j :: 0 <= j < |store| ==>
      FindQuestion(AddQuestions(store, inputs, ids).store, store[j].id) == Some(store[j])
    ensures forall i :: 0 <= i < |inputs| ==>
      FindQuestion(AddQuestions(store, inputs, ids).store, ids[i].questionId) == Some(NewQuestion(inputs[i], ids[i]))
  {
    var s := AddQuestions(store, inputs, ids).store;
    AddPreservesWellFormed(store, inputs, ids);
    forall j | 0 <= j < |store|
      ensures FindQuestion(s, store[j].id) == Some(store[j])
    {
      FindStored(s, j);
    }
    forall i | 0 <= i < |inputs|
      ensures FindQuestion(s, ids[i].questionId) == Some(NewQuestion(inputs[i], ids[i]))
    {
      FindStored(s, |store| + i);
      assert s[|store| + i] == NewQuestion(inputs[i], ids[i]);
    }
  }

  /** The submitted list with every `answer` field dropped. */
  function WithoutAnswers(inputs: seq<QuestionInput>): (r: seq<QuestionInput>)
    ensures |r| == |inputs|
    ensures forall i :: 0 <= i < |r| ==>
      r[i].answer.None? && r[i].text == inputs[i].text && r[i].options == inputs[i].options
  {
    seq(|inputs|, i requires 0 <= i < |inputs| => inputs[i].(answer := None))
  }

  /** The `answer` field has no effect on what is stored. */
  lemma AnswerFieldIgnored(store: Store, inputs: seq<QuestionInput>, ids: seq<NewIds>)
    requires IdsFit(inputs, ids)
    ensures IdsFit(WithoutAnswers(inputs), ids)
    ensures AddQuestions(store, inputs, ids) == AddQuestions(store, WithoutAnswers(inputs), ids)
  {
    var a := AddQuestions(store, inputs, ids).store;
    var b := AddQuestions(store, WithoutAnswers(inputs), ids).store;
    assert |a| == |b|;
    forall j | 0 <= j < |a| ensures a[j] == b[j] {
      if j >= |store| {
        var i := j - |store|;
        assert WithoutAnswers(inputs)[i].options == inputs[i].options;
        assert forall k :: 0 <= k < |a[j].options| ==> a[j].options[k] == b[j].options[k];
      }
    }
  }
}
