/**
 * DELETE /questions/<id>. The lookup, the `abort(404)` for a missing id and
 * the store's delete all run inside one bare `try`, whose `except` answers
 * 422: the 404 raised for a missing id is itself caught and turned into 422.
 */
module Deletion {
  import opened Wrappers
  import opened Domain
  import opened Filtering

  /** `Question.query.get(id)`: the stored question with that primary key, if any. */
  function FindQuestion(store: seq<Question>, id: int): (r: Option<Question>)
    ensures r.Some? ==> r.value in store && r.value.id == id
    ensures r.None? <==> forall q :: q in store ==> q.id != id
  {
    if store == [] then None
    else if store[0].id == id then Some(store[0])
    else FindQuestion(store[1..], id)
  }

  /** The store after the row with this id is deleted. */
  function WithoutQuestion(store: seq<Question>, id: int): (after: seq<Question>)
    ensures forall q :: q in after <==> q in store && q.id != id
  {
    Filter(store, (q: Question) => q.id != id)
  }

  /** Deleting a stored id shrinks the store by exactly one row when ids are unique. */
  lemma {:induction false} DeleteRemovesOne(store: seq<Question>, id: int)
    requires UniqueIds(store) && FindQuestion(store, id).Some?
    ensures |WithoutQuestion(store, id)| == |store| - 1
  {
    if store[0].id == id {
      FilterKeepsAll(store[1..], (q: Question) => q.id != id) by {
        forall q | q in store[1..] ensures q.id != id {
          var j :| 0 <= j < |store[1..]| && store[1..][j] == q;
          assert store[j + 1] == q;
        }
      }
    } else {
      assert UniqueIds(store[1..]) by {
        forall i, j | 0 <= i < j < |store[1..]| ensures store[1..][i].id != store[1..][j].id {
          assert store[1..][i] == store[i + 1] && store[1..][j] == store[j + 1];
        }
      }
      DeleteRemovesOne(store[1..], id);
    }
  }

  /**
   * The handler. `deleteFails` stands for the store raising while it deletes
   * the row (the commit is not part of this model); the store is then left as
   * it was.
   */
  method DeleteQuestion(store: seq<Question>, questionId: int, deleteFails: bool)
    returns (r: Response, after: seq<Question>)
    ensures r.Failure? ==> r.status == 422 && after == store
    ensures FindQuestion(store, questionId).None? ==> r == Failure(422)
    ensures r.Deleted? <==> FindQuestion(store, questionId).Some? && !deleteFails
    ensures r.Deleted? ==> r.deleted == questionId && after == WithoutQuestion(store, questionId)
    ensures r.Deleted? || r.Failure?
  {
    var raised := false;
    // try:
    var question := FindQuestion(store, questionId);
    if question.None? {
      raised := true;  // abort(404), raised inside the try
    } else if deleteFails {
      raised := true;
    }
    if raised {
      // except: abort(422)
      r, after := Failure(422), store;
    } else {
      r, after := Deleted(questionId), WithoutQuestion(store, questionId);
    }
  }
}
