/** The `GET /quiz` handler: a sample of the stored questions, each shown
    without its correctness flags. */
module QuizGeneration {
  import opened Wrappers
  import opened Records
  import opened Replies

  const DefaultQuizSize: nat := 5
  const NoQuestionsMessage := "No questions available"

  /** How many questions a quiz holds: the requested count (5 when the
      parameter is absent), capped at the number available. */
  function QuizSize(requested: Option<nat>, available: nat): (k: nat)
    ensures k <= available && k <= requested.GetOr(DefaultQuizSize)
    ensures k == available || k == requested.GetOr(DefaultQuizSize)
  {
    var n := requested.GetOr(DefaultQuizSize);
    if n < available then n else available
  }

  /** `sample` lists `k` pairwise distinct positions below `n`: the outcome of
      drawing `k` of `n` items without replacement, in drawing order. */
  predicate IsSample(sample: seq<nat>, k: nat, n: nat) {
    && |sample| == k
    && (forall i :: 0 <= i < |sample| ==> sample[i] < n)
    && (forall i, j :: 0 <= i < j < |sample| ==> sample[i] != sample[j])
  }

  /** The options of a quiz entry: ids and texts, in order. */
  function ProjectOptions(options: seq<AnswerOption>): (r: seq<QuizOption>)
    ensures |r| == |options|
    ensures forall k :: 0 <= k < |r| ==> r[k].id == options[k].id && r[k].text == options[k].text
  {
    if |options| == 0 then []
    else [QuizOption(options[0].id, options[0].text)] + ProjectOptions(options[1..])
  }

  /** A stored question as a quiz shows it. */
  function Project(q: Question): (r: QuizQuestion)
    ensures r.id == q.id && r.text == q.text
    ensures |r.options| == |q.options|
    ensures forall k :: 0 <= k < |r.options| ==> r.options[k] == QuizOption(q.options[k].id, q.options[k].text)
  {
    QuizQuestion(q.id, q.text, ProjectOptions(q.options))
  }

  /** The quiz entries for the sampled positions, in sample order. */
  function Select(store: Store, sample: seq<nat>): (quiz: seq<QuizQuestion>)
    requires forall i :: 0 <= i < |sample| ==> sample[i] < |store|
    ensures |quiz| == |sample|
    ensures forall i :: 0 <= i < |quiz| ==> quiz[i] == Project(store[sample[i]])
  {
    if |sample| == 0 then []
    else [Project(store[sample[0]])] + Select(store, sample[1..])
  }

  /** `GET /quiz`: 404 on an empty store, otherwise the projected questions
      at the sampled positions. `requested` is the parsed `num_questions`
      parameter and `sample` the draw made by the random generator. */
  function GenerateQuiz(store: Store, requested: Option<nat>, sample: seq<nat>): (r: Response)
    requires IsSample(sample, QuizSize(requested, |store|), |store|)
    ensures |store| == 0 <==> r == Response(NotFound, Message(NoQuestionsMessage))
    ensures |store| > 0 ==> r.status == Ok && r.body.Quiz?
    ensures r.body.Quiz? ==>
      && |r.body.questions| == QuizSize(requested, |store|)
      && forall i :: 0 <= i < |r.body.questions| ==> r.body.questions[i] == Project(store[sample[i]])
  {
    if |store| == 0 then Response(NotFound, Message(NoQuestionsMessage))
    else Response(Ok, Quiz(Select(store, sample)))
  }

  /** A request for more questions than are stored is capped, not rejected. */
  lemma OversizedRequestIsCapped(store: Store, requested: Option<nat>, sample: seq<nat>)
    requires IsSample(sample, QuizSize(requested, |store|), |store|)
    requires 0 < |store| <= requested.GetOr(DefaultQuizSize)
    ensures GenerateQuiz(store, requested, sample).status == Ok
    ensures |GenerateQuiz(store, requested, sample).body.questions| == |store|
  {
  }

  /** Every quiz entry comes from a stored question, and in a store with
      distinct ids no question appears twice: sampling is without
      replacement. */
  lemma QuizDrawsWithoutReplacement(store: Store, requested: Option<nat>, sample: seq<nat>)
    requires DistinctQuestionIds(store)
    requires IsSample(sample, QuizSize(requested, |store|), |store|)
    ensures var r := GenerateQuiz(store, requested, sample);
      r.body.Quiz? ==>
        && (forall i :: 0 <= i < |r.body.questions| ==>
              exists j :: 0 <= j < |store| && r.body.questions[i] == Project(store[j]))
        && (forall i, j :: 0 <= i < j < |r.body.questions| ==>
              r.body.questions[i].id != r.body.questions[j].id)
  {
  }

  /** Two questions that agree on ids and texts, of the question and of each
      option in order, and may differ only in which options are flagged
      correct. */
  predicate SameButFlags(a: Question, b: Question) {
    && a.id == b.id
    && a.text == b.text
    && |a.options| == |b.options|
    && forall k :: 0 <= k < |a.options| ==>
         a.options[k].id == b.options[k].id && a.options[k].text == b.options[k].text
  }

  /** The projection forgets exactly the correctness flags: two questions
      look the same in a quiz if and only if they differ at most in them. */
  lemma ProjectionForgetsOnlyFlags(a: Question, b: Question)
    ensures Project(a) == Project(b) <==> SameButFlags(a, b)
  {
  }

  /** No correctness information reaches a quiz: stores that differ only in
      their correctness flags produce the same response for the same draw. */
  lemma QuizHidesCorrectness(a: Store, b: Store, requested: Option<nat>, sample: seq<nat>)
    requires |a| == |b|
    requires forall j :: 0 <= j < |a| ==> SameButFlags(a[j], b[j])
    requires IsSample(sample, QuizSize(requested, |a|), |a|)
    ensures GenerateQuiz(a, requested, sample) == GenerateQuiz(b, requested, sample)
  {
    var ra, rb := GenerateQuiz(a, requested, sample), GenerateQuiz(b, requested, sample);
    if |a| > 0 {
      forall i | 0 <= i < |sample|
        ensures ra.body.questions[i] == rb.body.questions[i]
      {
        ProjectionForgetsOnlyFlags(a[sample[i]], b[sample[i]]);
      }
    }
  }

  /** The distinct elements of a sequence form a set as large as the sequence. */
  lemma {:induction false} DistinctElementsCount(s: seq<nat>)
    requires forall i, j :: 0 <= i < j < |s| ==> s[i] != s[j]
    ensures |(set i | 0 <= i < |s| :: s[i])| == |s|
  {
    if |s| > 0 {
      var rest := s[1..];
      DistinctElementsCount(rest);
      var tail := set i | 0 <= i < |rest| :: rest[i];
      assert (set i | 0 <= i < |s| :: s[i]) == {s[0]} + tail by {
        forall x | x in tail ensures x in (set i | 0 <= i < |s| :: s[i]) {
          var i :| 0 <= i < |rest| && rest[i] == x;
          assert s[i + 1] == x;
        }
      }
      assert s[0] !in tail;
    }
  }

  /** The naturals below `n`. */
  function Below(n: nat): (r: set<nat>)
    ensures forall x: nat :: x in r <==> x < n
    ensures |r| == n
  {
    if n == 0 then {} else Below(n - 1) + {n - 1}
  }

  /** A subset as large as its finite superset is the whole superset. */
  lemma {:induction false} FullSubsetIsEqual(a: set<nat>, b: set<nat>)
    requires a <= b && |a| == |b|
    ensures a == b
  {
    assert b == a + (b - a);
    assert a !! (b - a);
    assert |b - a| == 0;
  }

  /** A sample of all `n` positions covers every position. */
  lemma FullSampleCovers(sample: seq<nat>, n: nat)
    requires IsSample(sample, n, n)
    ensures forall j :: 0 <= j < n ==> j in sample
  {
    var drawn := set i | 0 <= i < |sample| :: sample[i];
    DistinctElementsCount(sample);
    FullSubsetIsEqual(drawn, Below(n));
    forall j | 0 <= j < n ensures j in sample {
      assert j in drawn;
    }
  }

  /** When the request reaches the store's size, the quiz shows every stored
      question. */
  lemma FullQuizShowsEveryQuestion(store: Store, requested: Option<nat>, sample: seq<nat>)
    requires IsSample(sample, QuizSize(requested, |store|), |store|)
    requires 0 < |store| <= requested.GetOr(DefaultQuizSize)
    ensures forall j :: 0 <= j < |store| ==>
      Project(store[j]) in GenerateQuiz(store, requested, sample).body.questions
  {
    var quiz := GenerateQuiz(store, requested, sample).body.questions;
    FullSampleCovers(sample, |store|);
    forall j | 0 <= j < |store|
      ensures Project(store[j]) in quiz
    {
      assert j in sample;
      var i :| 0 <= i < |sample| && sample[i] == j;
      assert quiz[i] == Project(store[j]);
    }
  }
}
