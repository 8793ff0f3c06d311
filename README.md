# Trivia API: page windows, quiz selection and delete outcomes

This project models the decision logic of a small Flask trivia API
(`backend/flaskr/__init__.py`). It does not model the HTTP layer or the
database around that logic. The stored rows reach the model as sequences,
in the order the database query returns them.

The modelled parts are:

- **Pagination** (`pagination.dfy`). Every listing handler computes
  `start = (page - 1) * 10` and `end = start + 10` and answers
  `items[start:end]`. The page number is any integer from the query string,
  so the model uses Python's slice rules: a negative bound counts from the
  end of the list, then both bounds are clamped into the list.
- **Filtering and the category dictionary** (`filtering.dfy`). This is the
  order-preserving filter behind `filter_by(...)`, the search and the quiz
  pool. It also covers the `{id: type}` dictionary comprehension.
- **Listing handlers** (`listing.dfy`): GET /questions,
  GET /categories/<id>/questions and POST /questions/search. Each one reports
  the filtered, unpaginated count as `total_questions`.
- **Quiz** (`quiz.dfy`). Category 0 selects every question. The first pick
  of a game is a nondeterministic choice of any pool index. Every later pick
  scans the pool and stops at the first question whose id is not in
  `previous_questions`. The game ends when the history is as long as the
  pool. The selector is a method whose loop ends with a `break`, as in the
  source.
- **Delete** (`deletion.dfy`). The lookup, the `abort(404)` and the store's
  delete all sit inside one bare `try`. As a result, a missing id is
  answered with 422, not 404.
- **Error handlers** (`errors.dfy`): the fixed code-to-message JSON bodies
  for 400, 404, 405 and 422.

On these edge cases the code behaves as follows, and so does the model:

- A category id with no category makes GET /categories/<id>/questions call
  `.format()` on `None`. Nothing catches that error, so the answer is status
  500.
- DELETE of a missing id answers 422, not 404: the `abort(404)` is raised inside the `try` and caught.
- The first quiz pick on an empty pool fails inside `random.randrange(0, 0)`.
  Nothing catches that either, so the answer is status 500. There is no
  dedicated empty-pool error.
- `previous_questions` is a list, not a set. The game ends when its length
  equals the pool size, whatever ids it holds.
- A missing `previous_questions` behaves like an empty list, because both
  are falsy. It is echoed back as `null`.
- A missing `quiz_category` is subscripted as `None`, which gives status 500.

## Model

| member | source | states |
|---|---|---|
| `Pagination.Slice` | backend/flaskr/__init__.py:50 | Python slicing never fails. It returns no more items than the list holds, and no more than the distance between the two bounds. |
| `Pagination.Paginate` | backend/flaskr/__init__.py:41-50 | Any page, including 0 and negative pages, answers at most 10 questions and never more than the list holds. |
| `Pagination.PageIsWindow` | backend/flaskr/__init__.py:42-50 | For page >= 1 the answer is the run of items starting at (page-1)*10, in original order. It holds min(10, len - start) items. It is empty when the start is at or past the end. |
| `Pagination.PageZeroIsEmpty` | backend/flaskr/__init__.py:41-50 | Page 0 (window `[-10:0]`) is always empty. |
| `Pagination.NegativePageCountsFromEnd` | backend/flaskr/__init__.py:41-50 | A negative page is not rejected. Both bounds count back from the end of the list, then get clamped. |
| `Pagination.ItemOnItsPage` | backend/flaskr/__init__.py:42-50 | Item k is on page k/10 + 1, at position k mod 10. |
| `Pagination.PagesTile` | backend/flaskr/__init__.py:42-50 | Pages 1..p, read in order, give back exactly the first min(10p, len) items. No item is repeated or skipped. |
| `Pagination.NonEmptyPages` | backend/flaskr/__init__.py:42-51 | For page >= 1 the page has items exactly when page <= ceil(total_questions / 10). |
| `Filtering.Filter` | backend/flaskr/__init__.py:63-64 | A row is in the filtered list exactly when it is in the input and satisfies the predicate. The result is no longer than the input. |
| `Filtering.FilterAppend` | backend/flaskr/__init__.py:63-64 | Filtering distributes over concatenation, so it keeps the query order. |
| `Filtering.FilterKeepsAll` | backend/flaskr/__init__.py:128-131 | A filter that every row satisfies returns the list unchanged. |
| `Filtering.FilterKeepsUniqueIds` | backend/flaskr/__init__.py:63 | A filtered list of stored questions still has unique primary keys. |
| `Filtering.CategoryMap` | backend/flaskr/__init__.py:30-31 | The dictionary's keys are exactly the ids of the listed categories. |
| `Filtering.CategoryMapLookup` | backend/flaskr/__init__.py:31 | With unique ids, each category is listed under its own id with its own type. |
| `Listing.FindCategory` | backend/flaskr/__init__.py:68 | The lookup finds a category with the requested id, or reports none exactly when no category has it. |
| `Listing.GetQuestions` | backend/flaskr/__init__.py:40-55 | `total_questions` is the size of the whole store. The page holds at most 10 questions and never more than the total. The category dictionary is attached and `current_category` is null. |
| `Listing.GetCategoryQuestions` | backend/flaskr/__init__.py:59-70 | A missing category gives status 500. Otherwise the answer is a listing, and every question answered is a stored question of that category, and `current_category` is that category. |
| `Listing.SearchQuestions` | backend/flaskr/__init__.py:99-115 | A missing body gives 400. Otherwise the answer is a listing, and every question answered is a stored question that matches the term, and `current_category` is null. |
| `Listing.TotalIsFilteredCount` | backend/flaskr/__init__.py:49-112 | In all three listings `total_questions` is the length of the filtered list and does not depend on the page. For page >= 1 the questions are that list's items from the page start on, in order. |
| `Quiz.QuizPool` | backend/flaskr/__init__.py:128-131 | A question is in the pool exactly when it is stored and either the category id is 0 or the question has that category. |
| `Quiz.PoolIsStoreOrder` | backend/flaskr/__init__.py:128-131 | Category 0 gives the store itself, in query order. A filter that drops nothing gives the store unchanged. Unique ids stay unique in the pool. |
| `Quiz.FirstUnplayed` | backend/flaskr/__init__.py:140-143 | A result is a pool question whose id is not in the history. No result means every pool question's id is in the history. |
| `Quiz.FirstUnplayedAt` | backend/flaskr/__init__.py:140-143 | The result is the earliest unplayed question: every pool question before it has been played. |
| `Quiz.SelectNext` | backend/flaskr/__init__.py:134-143 | Empty history: any pool question, or a failed draw exactly when the pool is empty. Non-empty history as long as the pool: no question. Otherwise: the first unplayed question in pool order. With a non-empty history, never an already played id. |
| `Quiz.PlayQuiz` | backend/flaskr/__init__.py:119-149 | No body gives 400. A missing category gives 500. With an empty or missing history, an empty pool gives 500 and a non-empty pool gives some question of the pool. A non-empty history as long as the pool gives no question. Any other non-empty history gives the first unplayed question in pool order, never a played id. The history is echoed back as sent. |
| `Quiz.CountEndMatchesScan` | backend/flaskr/__init__.py:137-143 | Take a pool with unique ids and a history of distinct ids drawn from it. The history is as long as the pool exactly when every pool question has been played. |
| `Quiz.CountEndIgnoresContents` | backend/flaskr/__init__.py:137-138 | History [1, 1] over a two-question pool is as long as the pool, so the game ends, yet question 2 is unplayed. A history longer than the pool falls through to the scan. |
| `Deletion.FindQuestion` | backend/flaskr/__init__.py:158 | The lookup finds a stored question with that id, or reports none exactly when no stored question has it. |
| `Deletion.WithoutQuestion` | backend/flaskr/__init__.py:162 | After the delete, the store holds exactly the rows whose id differs from the deleted one. |
| `Deletion.DeleteRemovesOne` | backend/flaskr/__init__.py:162 | With unique ids, deleting a stored id removes exactly one row. |
| `Deletion.DeleteQuestion` | backend/flaskr/__init__.py:156-168 | The delete succeeds exactly when the id exists and the store's delete does not fail; then it reports the id and the row is gone. Every other outcome, including a missing id, is 422 with the store unchanged. |
| `Errors.KindOf` | backend/flaskr/__init__.py:173-205 | A status has a handler exactly when it is 400, 404, 405 or 422. |
| `Errors.HandleError` | backend/flaskr/__init__.py:173-205 | Every handled status gets a body with `success` false, `error` equal to the status and that handler's message, sent with the same status. Other statuses get no JSON body. |
| `Errors.KindOfCode` | backend/flaskr/__init__.py:173-205 | Each kind of error is found again from its own status. |
| `Errors.CodeOfKindOf` | backend/flaskr/__init__.py:173-205 | A handled status is the status of the kind that handles it. |
| `Errors.MessagesDistinct` | backend/flaskr/__init__.py:173-205 | The four handlers' messages are pairwise different. |

## Left out

- Routing, `request.args`/`request.get_json` parsing and `jsonify` are framework plumbing and are not modelled. A non-numeric `page` falls back to 1 in the request layer. Request bodies reach the model already parsed, as optional records.
- The CORS setup and the after-request headers (lines 13-20) are framework configuration.
- SQLAlchemy queries are foreign calls. Their results are given as sequences in query order. The ordering the database picks for an unordered `query.all()` is not modelled.
- `ILIKE '%term%'` (line 107) is decided by the database. It is the abstract predicate `matches(term, text)`, so case folding and the `%`/`_` wildcards are not modelled.
- `Question.format()` and `Category.format()` live in `models`, which is not part of this model. Listings carry the records themselves.
- SelectNext: the first pick is any pool question. The uniform distribution of `random.randrange` is not modelled.
- DeleteQuestion: the store's delete and commit are one `deleteFails` input that leaves the store unchanged. A failing lookup, or a partly applied delete, is not modelled.
- `add_question` (lines 77-95) and the body of `get_categories` (lines 29-36) are outside the modelled core. Only the category dictionary they share is modelled, as `CategoryMap`.
- The history is modelled as a list of integer ids. The quiz category is modelled as present or absent. Other JSON shapes are not modelled, such as non-integer entries or a `quiz_category` without an `id` key.
- The framework's default 500 page is represented only by its status.
