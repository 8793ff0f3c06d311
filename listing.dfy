/**
 * The three listing handlers: GET /questions, GET /categories/<id>/questions
 * and POST /questions/search. Each filters the stored questions, reports the
 * filtered count as `total_questions`, and answers one page of the filtered
 * list.
 */
module Listing {
  import opened Wrappers
  import opened Domain
  import opened Pagination
  import opened Filtering

  /** The request body of a search; `searchTerm` is `None` when the key is absent. */
  datatype SearchRequest = SearchRequest(searchTerm: Option<string>)

  /** `Category.query.get(id)`: the category with that primary key, if any. */
  function FindCategory(categories: seq<Category>, id: int): (r: Option<Category>)
    ensures r.Some? ==> r.value in categories && r.value.id == id
    ensures r.None? <==> forall c :: c in categories ==> c.id != id
  {
    if categories == [] then None
    else if categories[0].id == id then Some(categories[0])
    else FindCategory(categories[1..], id)
  }

  /** GET /questions: a page of all questions, the category dictionary, no current category. */
  function GetQuestions(store: seq<Question>, categories: seq<Category>, page: int): (r: Response)
    ensures r.Listing? && r.currentCategory == None
    ensures r.totalQuestions == |store|
    ensures r.categories == Some(CategoryMap(categories))
    ensures |r.questions| <= QuestionsPerPage && |r.questions| <= r.totalQuestions
  {
    Listing(Paginate(store, page), |store|, Some(CategoryMap(categories)), None)
  }

  /**
   * GET /categories/<id>/questions. The current category is looked up after
   * the questions; for an id with no category the source calls `.format()` on
   * `None`, an uncaught error that the framework answers with status 500.
   */
  function GetCategoryQuestions(store: seq<Question>, categories: seq<Category>, categoryId: int, page: int)
    : (r: Response)
    ensures r.Failure? || r.Listing?
    ensures r.Failure? <==> FindCategory(categories, categoryId).None?
    ensures r.Failure? ==> r.status == 500
    ensures r.Listing? ==>
      && r.currentCategory.Some? && r.currentCategory.value in categories
      && r.currentCategory.value.id == categoryId && r.categories == None
    ensures r.Listing? ==> forall q :: q in r.questions ==> q in store && q.category == categoryId
  {
    var matching := Filter(store, InCategory(categoryId));
    match FindCategory(categories, categoryId)
    case None => Failure(500)
    case Some(c) => Listing(Paginate(matching, page), |matching|, None, Some(c))
  }

  /**
   * POST /questions/search. `matches(term, text)` stands for the database's
   * case-insensitive `ILIKE '%term%'` test on the question text; the term is
   * interpolated even when it is `None`.
   */
  function SearchQuestions(store: seq<Question>, page: int, body: Option<SearchRequest>,
                           matches: (Option<string>, string) -> bool): (r: Response)
    ensures r.Failure? || r.Listing?
    ensures r.Failure? <==> body.None?
    ensures r.Failure? ==> r.status == 400
    ensures r.Listing? ==> r.currentCategory == None && r.categories == None
    ensures r.Listing? ==> forall q :: q in r.questions ==> q in store && matches(body.value.searchTerm, q.question)
  {
    match body
    case None => Failure(400)
    case Some(req) =>
      var found := Filter(store, (q: Question) => matches(req.searchTerm, q.question));
      Listing(Paginate(found, page), |found|, None, None)
  }

  /**
   * In every listing handler `total_questions` is the length of the whole
   * filtered list: it does not depend on the page asked for, is never less
   * than the page's length, and for page >= 1 the questions answered are the
   * filtered list's items from the page's first index on, in order.
   */
  lemma {:induction false} TotalIsFilteredCount(store: seq<Question>, categories: seq<Category>, categoryId: int,
                              body: SearchRequest, matches: (Option<string>, string) -> bool, page: int, other: int)
    requires page >= 1
    ensures var r := GetQuestions(store, categories, page);
      r.totalQuestions == GetQuestions(store, categories, other).totalQuestions
      && (forall k :: 0 <= k < |r.questions| ==> r.questions[k] == store[PageStart(page) + k])
    ensures var r := GetCategoryQuestions(store, categories, categoryId, page);
      var all := Filter(store, InCategory(categoryId));
      r.Listing? ==>
        && r.totalQuestions == |all|
        && r.totalQuestions == GetCategoryQuestions(store, categories, categoryId, other).totalQuestions
        && (forall k :: 0 <= k < |r.questions| ==> r.questions[k] == all[PageStart(page) + k])
    ensures var r := SearchQuestions(store, page, Some(body), matches);
      var all := Filter(store, (q: Question) => matches(body.searchTerm, q.question));
      && r.totalQuestions == |all|
      && r.totalQuestions == SearchQuestions(store, other, Some(body), matches).totalQuestions
      && (forall k :: 0 <= k < |r.questions| ==> r.questions[k] == all[PageStart(page) + k])
  {
    PageIsWindow(store, page);
    PageIsWindow(Filter(store, InCategory(categoryId)), page);
    PageIsWindow(Filter(store, (q: Question) => matches(body.searchTerm, q.question)), page);
  }
}
