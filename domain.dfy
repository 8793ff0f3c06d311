/**
 * The records the handlers work on and the replies they produce. The stored
 * rows are given to the model as sequences in the order the database
 * returns them; nothing here talks to a database.
 */
module Domain {
  import opened Wrappers

  /** A stored question; `id` is the primary key assigned by the store. */
  datatype Question = Question(id: int, question: string, answer: string, category: int, difficulty: int)

  /** A stored category; `typeName` is the column the source calls `type`. */
  datatype Category = Category(id: int, typeName: string)

  /**
   * What a handler answers. `Failure(status)` is an `abort(status)` (rendered
   * by the error handlers) or, for 500, an exception nothing catches.
   */
  datatype Response =
    | Listing(questions: seq<Question>, totalQuestions: nat,
              categories: Option<map<int, string>>, currentCategory: Option<Category>)
    | QuizTurn(previousQuestions: Option<seq<int>>, question: Option<Question>)
    | Deleted(deleted: int)
    | Failure(status: int)

  /** The store's primary-key invariant: no two stored questions share an id. */
  predicate UniqueIds(qs: seq<Question>) {
    forall i, j :: 0 <= i < j < |qs| ==> qs[i].id != qs[j].id
  }

  /** Ids of a sequence of questions, in order. */
  function Ids(qs: seq<Question>): (ids: seq<int>)
    ensures |ids| == |qs|
    ensures forall i :: 0 <= i < |qs| ==> ids[i] == qs[i].id
  {
    seq(|qs|, i requires 0 <= i < |qs| => qs[i].id)
  }
}
