/** The two database tables of the quiz service, with the store of all
    questions replaced by an in-memory sequence. */
module Records {
  import opened Wrappers
  import Search

  /** A row of the option table: its database id, its text and whether it is
      the correct answer. Its foreign key is implicit: an option lives inside
      the question it belongs to. */
  datatype AnswerOption = AnswerOption(id: int, text: string, isCorrect: bool)

  /** A row of the question table together with its options, in the order
      they were inserted. */
  datatype Question = Question(id: int, text: string, options: seq<AnswerOption>)

  /** Every stored question, in insertion order. */
  type Store = seq<Question>

  /** Question ids are a primary key. */
  predicate DistinctQuestionIds(store: Store) {
    forall i, j :: 0 <= i < j < |store| ==> store[i].id != store[j].id
  }

  /** Option ids are a primary key of the option table, so they are distinct
      across all questions, not only within one. */
  predicate DistinctOptionIds(store: Store) {
    forall i, k, j, l ::
      0 <= i < |store| && 0 <= k < |store[i].options| &&
      0 <= j < |store| && 0 <= l < |store[j].options| &&
      (i != j || k != l)
      ==> store[i].options[k].id != store[j].options[l].id
  }

  /** The invariant the database maintains through its primary keys. */
  predicate WellFormed(store: Store) {
    DistinctQuestionIds(store) && DistinctOptionIds(store)
  }

  /** Lookup of a question by primary key; `None` when no row has that id. */
  function FindQuestion(store: Store, id: int): (r: Option<Question>)
    ensures r.None? <==> forall j :: 0 <= j < |store| ==> store[j].id != id
    ensures r.Some? ==> r.value.id == id && r.value in store
  {
    match Search.FirstIndex(store, (q: Question) => q.id == id)
    case None => None
    case Some(j) => Some(store[j])
  }

  /** With distinct ids the lookup returns exactly the question carrying the id. */
  lemma FindStored(store: Store, j: int)
    requires DistinctQuestionIds(store)
    requires 0 <= j < |store|
    ensures FindQuestion(store, store[j].id) == Some(store[j])
  {
  }
}
