/**
 * POST /quizzes: build the pool of candidate questions for the chosen
 * category and pick the next question not yet played. The first pick of a
 * game is random; every later pick is the first unplayed question in pool
 * order, and the game ends as soon as the history is as long as the pool.
 */
module Quiz {
  import opened Wrappers
  import opened Domain
  import opened Filtering

  /**
   * The request body. Either key may be missing; `quizCategory` is the `id`
   * entry of the `quiz_category` object.
   */
  datatype QuizRequest = QuizRequest(previousQuestions: Option<seq<int>>, quizCategory: Option<int>)

  /** Outcome of the selector: a question or none, or the failing random draw on an empty pool. */
  datatype Selection = Selected(question: Option<Question>) | EmptyRangeError

  /** Category id 0 means every question; any other id keeps that category's questions. */
  function QuizPool(store: seq<Question>, categoryId: int): (pool: seq<Question>)
    ensures forall q :: q in pool <==> q in store && (categoryId == 0 || q.category == categoryId)
  {
    if categoryId == 0 then store else Filter(store, InCategory(categoryId))
  }

  /** The pool keeps the store's order and drops nothing of the chosen category. */
  lemma PoolIsStoreOrder(store: seq<Question>, categoryId: int)
    ensures categoryId == 0 ==> QuizPool(store, categoryId) == store
    ensures (forall q :: q in store ==> q.category == categoryId) ==> QuizPool(store, categoryId) == store
    ensures UniqueIds(store) ==> UniqueIds(QuizPool(store, categoryId))
  {
    if categoryId != 0 {
      if forall q :: q in store ==> q.category == categoryId {
        FilterKeepsAll(store, InCategory(categoryId));
      }
      if UniqueIds(store) {
        FilterKeepsUniqueIds(store, InCategory(categoryId));
      }
    }
  }

  /** The first question of the pool, in pool order, whose id is not in `previous`. */
  function FirstUnplayed(pool: seq<Question>, previous: seq<int>): (r: Option<Question>)
    ensures r.Some? ==> r.value in pool && r.value.id !in previous
    ensures r.None? <==> forall q :: q in pool ==> q.id in previous
  {
    if pool == [] then None
    else if pool[0].id !in previous then Some(pool[0])
    else FirstUnplayed(pool[1..], previous)
  }

  /** `FirstUnplayed` is the earliest unplayed question: everything before it was played. */
  lemma {:induction false} FirstUnplayedAt(pool: seq<Question>, previous: seq<int>, i: nat)
    requires i < |pool| && pool[i].id !in previous
    requires forall j :: 0 <= j < i ==> pool[j].id in previous
    ensures FirstUnplayed(pool, previous) == Some(pool[i])
  {
    if i > 0 {
      FirstUnplayedAt(pool[1..], previous, i - 1);
    }
  }

  /**
   * The selector of the handler. With an empty (or missing) history it draws
   * any index of the pool, failing when the pool is empty; with a history as
   * long as the pool it answers no question; otherwise it scans the pool and
   * stops at the first question whose id is not in the history.
   */
  method SelectNext(pool: seq<Question>, previous: seq<int>) returns (s: Selection)
    ensures s.EmptyRangeError? <==> previous == [] && pool == []
    ensures previous == [] && pool != [] ==> s.Selected? && s.question.Some? && s.question.value in pool
    ensures previous != [] && |previous| == |pool| ==> s == Selected(None)
    ensures previous != [] && |previous| != |pool| ==> s == Selected(FirstUnplayed(pool, previous))
    ensures previous != [] ==> s.Selected? && (s.question.Some? ==> s.question.value.id !in previous)
  {
    var next: Option<Question> := None;
    if previous == [] {
      if |pool| == 0 {
        return EmptyRangeError;
      }
      var index :| 0 <= index < |pool|;
      next := Some(pool[index]);
    } else if |previous| == |pool| {
      next := None;
    } else {
      var i := 0;
      while i < |pool|
        invariant 0 <= i <= |pool|
        invariant next == None
        invariant forall j :: 0 <= j < i ==> pool[j].id in previous
      {
        if pool[i].id !in previous {
          next := Some(pool[i]);
          FirstUnplayedAt(pool, previous, i);
          break;
        }
        i := i + 1;
      }
    }
    s := Selected(next);
  }

  /**
   * The handler: 400 without a body, 500 when `quiz_category` is missing
   * (subscripting `None`) or when the first draw meets an empty pool;
   * otherwise the selector's question, with the history echoed back as sent.
   */
  method PlayQuiz(store: seq<Question>, body: Option<QuizRequest>) returns (r: Response)
    ensures body.None? ==> r == Failure(400)
    ensures body.Some? && body.value.quizCategory.None? ==> r == Failure(500)
    ensures r.QuizTurn? ==>
      && body.Some? && body.value.quizCategory.Some?
      && r.previousQuestions == body.value.previousQuestions
    ensures r.QuizTurn? && r.question.Some? ==>
      r.question.value in QuizPool(store, body.value.quizCategory.value)
    ensures r.QuizTurn? && body.value.previousQuestions.Some? && r.question.Some? ==>
      r.question.value.id !in body.value.previousQuestions.value
    ensures body.Some? && body.value.quizCategory.Some? ==>
      var pool := QuizPool(store, body.value.quizCategory.value);
      var previous := body.value.previousQuestions;
      && (r.Failure? <==> (previous.None? || previous.value == []) && pool == [])
      && ((previous.None? || previous.value == []) ==>
            if pool == [] then r == Failure(500) else r.QuizTurn? && r.question.Some?)
      && (previous.Some? && previous.value != [] && |previous.value| == |pool| ==> r.QuizTurn? && r.question == None)
      && (previous.Some? && previous.value != [] && |previous.value| != |pool| ==>
            r.QuizTurn? && r.question == FirstUnplayed(pool, previous.value))
  {
    if body.None? {
      return Failure(400);
    }
    var req := body.value;
    if req.quizCategory.None? {
      return Failure(500);
    }
    var pool := QuizPool(store, req.quizCategory.value);
    var played := if req.previousQuestions.Some? then req.previousQuestions.value else [];
    var s := SelectNext(pool, played);
    match s
    case EmptyRangeError => r := Failure(500);
    case Selected(q) => r := QuizTurn(req.previousQuestions, q);
  }

  /** No id occurs twice in a history. */
  predicate Distinct(s: seq<int>) {
    forall i, j :: 0 <= i < j < |s| ==> s[i] != s[j]
  }

  /** The ids occurring in a history. */
  function Elements(s: seq<int>): (e: set<int>)
    ensures forall x :: x in e <==> x in s
  {
    set x | x in s
  }

  /** The ids of a list without repeats are as many as its length. */
  lemma {:induction false} DistinctCard(s: seq<int>)
    requires Distinct(s)
    ensures |Elements(s)| == |s|
  {
    if s != [] {
      DistinctCard(s[1..]);
      var rest := Elements(s[1..]);
      assert Elements(s) == {s[0]} + rest;
      assert s[0] !in rest;
    }
  }

  /** A subset as large as its finite superset is the whole superset. */
  lemma SubsetOfSameSize(a: set<int>, b: set<int>)
    requires a <= b && |a| == |b|
    ensures a == b
  {
    assert b == a + (b - a);
    assert a * (b - a) == {};
    assert |b - a| == 0;
  }

  /**
   * For a history the client builds honestly (the ids of questions drawn from
   * this pool, none twice) over a pool with unique ids, the count test agrees
   * with the scan: the history is as long as the pool exactly when every
   * question of the pool has been played.
   */
  lemma CountEndMatchesScan(pool: seq<Question>, previous: seq<int>)
    requires UniqueIds(pool) && Distinct(previous)
    requires forall id :: id in previous ==> id in Ids(pool)
    ensures |previous| == |pool| <==> FirstUnplayed(pool, previous) == None
  {
    if |previous| == |pool| {
      FullHistoryPlayedAll(pool, previous);
    }
    if FirstUnplayed(pool, previous) == None {
      PlayedAllIsFullHistory(pool, previous);
    }
  }

  /** The count test implies the scan finds nothing (first half of `CountEndMatchesScan`). */
  lemma FullHistoryPlayedAll(pool: seq<Question>, previous: seq<int>)
    requires UniqueIds(pool) && Distinct(previous)
    requires forall id :: id in previous ==> id in Ids(pool)
    requires |previous| == |pool|
    ensures FirstUnplayed(pool, previous) == None
  {
    var played, ids := Elements(previous), Elements(Ids(pool));
    assert played <= ids;
    assert |played| == |previous| by { DistinctCard(previous); }
    assert |ids| == |pool| by { DistinctCard(Ids(pool)); }
    SubsetOfSameSize(played, ids);
    AllPlayed(pool, previous);
  }

  /** The scan finding nothing implies the count test (second half of `CountEndMatchesScan`). */
  lemma PlayedAllIsFullHistory(pool: seq<Question>, previous: seq<int>)
    requires UniqueIds(pool) && Distinct(previous)
    requires forall id :: id in previous ==> id in Ids(pool)
    requires FirstUnplayed(pool, previous) == None
    ensures |previous| == |pool|
  {
    var played, ids := Elements(previous), Elements(Ids(pool));
    assert played <= ids;
    assert |played| == |previous| by { DistinctCard(previous); }
    assert |ids| == |pool| by { DistinctCard(Ids(pool)); }
    PlayedAll(pool, previous);
    assert ids <= played;
    assert played == ids;
  }

  /** Every pool id in the history: every pool question has been played. */
  lemma AllPlayed(pool: seq<Question>, previous: seq<int>)
    requires Elements(Ids(pool)) <= Elements(previous)
    ensures forall q :: q in pool ==> q.id in previous
  {
  }

  /** The converse of `AllPlayed`. */
  lemma PlayedAll(pool: seq<Question>, previous: seq<int>)
    requires forall q :: q in pool ==> q.id in previous
    ensures Elements(Ids(pool)) <= Elements(previous)
  {
  }

  /**
   * The game ends on a count, not on contents: a history as long as the pool
   * ends it even when a pool question is still unplayed (here a repeated id),
   * and a longer history falls through to the scan.
   */
  lemma CountEndIgnoresContents()
    ensures var q1, q2 := Question(1, "", "", 1, 1), Question(2, "", "", 1, 1);
      var previous := [1, 1];
      && |previous| == |[q1, q2]|
      && FirstUnplayed([q1, q2], previous) == Some(q2)
    ensures var q1 := Question(1, "", "", 1, 1);
      FirstUnplayed([q1], [5, 6]) == Some(q1)
  {
  }
}
