/**
 * The page window every listing handler computes: with
 * `start = (page - 1) * QUESTIONS_PER_PAGE` and `end = start + QUESTIONS_PER_PAGE`
 * it answers `items[start:end]` under Python's slice rules. `page` is whatever
 * integer the query string held (1 when absent), so pages 0 and below are
 * modelled too: there a negative bound counts from the end of the list.
 */
module Pagination {

  const QuestionsPerPage: nat := 10

  function Min(a: int, b: int): int { if a <= b then a else b }
  function Max(a: int, b: int): int { if a <= b then b else a }

  /** Python's reading of one slice bound against a list of length n. */
  function SliceBound(i: int, n: nat): (b: nat)
    ensures b <= n
  {
    if i < 0 then (if n + i < 0 then 0 else n + i)
    else if i > n then n else i
  }

  /** `s[i:j]` as Python evaluates it: it never fails, whatever i and j are. */
  function Slice<T>(s: seq<T>, i: int, j: int): (r: seq<T>)
    ensures |r| <= |s|
    ensures i <= j ==> |r| <= j - i
  {
    var lo := SliceBound(i, |s|);
    var hi := SliceBound(j, |s|);
    if lo < hi then s[lo..hi] else []
  }

  /** First index of a page. */
  function PageStart(page: int): int {
    (page - 1) * QuestionsPerPage
  }

  /** `items[start:end]` for the page the request asked for. */
  function Paginate<T>(items: seq<T>, page: int): (r: seq<T>)
    ensures |r| <= QuestionsPerPage
    ensures |r| <= |items|
  {
    var start := PageStart(page);
    Slice(items, start, start + QuestionsPerPage)
  }

  /**
   * For page >= 1 the answer is the contiguous run of items starting at the
   * page's first index, in their original order, cut short by the end of the
   * list; a page that starts at or past the end is empty.
   */
  lemma PageIsWindow<T>(items: seq<T>, page: int)
    requires page >= 1
    ensures var r, start := Paginate(items, page), PageStart(page);
      && (start >= |items| ==> r == [])
      && (start < |items| ==> |r| == Min(QuestionsPerPage, |items| - start))
      && (forall k :: 0 <= k < |r| ==> start + k < |items| && r[k] == items[start + k])
  {
  }

  /** Page 0 is always empty: its window is `items[-10:0]`. */
  lemma PageZeroIsEmpty<T>(items: seq<T>)
    ensures Paginate(items, 0) == []
  {
  }

  /**
   * A negative page is not rejected: both bounds count back from the end of
   * the list, so page -1 answers the window ending ten items before the end.
   */
  lemma NegativePageCountsFromEnd<T>(items: seq<T>, page: int)
    requires page < 0
    ensures var start := PageStart(page);
      var lo, hi := Max(0, |items| + start), Max(0, |items| + start + QuestionsPerPage);
      lo <= hi <= |items| && Paginate(items, page) == items[lo..hi]
  {
  }

  /** Item k is found on page k / 10 + 1, at position k % 10. */
  lemma ItemOnItsPage<T>(items: seq<T>, k: nat)
    requires k < |items|
    ensures var page := k / QuestionsPerPage + 1;
      var r := Paginate(items, page);
      k % QuestionsPerPage < |r| && r[k % QuestionsPerPage] == items[k]
  {
  }

  /** The concatenation of pages 1 to p. */
  function FirstPages<T>(items: seq<T>, p: nat): seq<T> {
    if p == 0 then [] else FirstPages(items, p - 1) + Paginate(items, p)
  }

  /**
   * Pages 1, 2, ... tile the list: read one after another they give back the
   * list's prefix in order, with no item repeated or skipped.
   */
  lemma {:induction false} PagesTile<T>(items: seq<T>, p: nat)
    ensures FirstPages(items, p) == items[..Min(p * QuestionsPerPage, |items|)]
  {
    if p > 0 {
      PagesTile(items, p - 1);
      PageIsWindow(items, p);
      var a := Min((p - 1) * QuestionsPerPage, |items|);
      var b := Min(p * QuestionsPerPage, |items|);
      assert Paginate(items, p) == items[a..b];
      assert items[..a] + items[a..b] == items[..b];
    }
  }

  /**
   * `total_questions` is enough for a client to know the page count: page p
   * (p >= 1) holds items exactly when p <= ceil(total / 10).
   */
  lemma NonEmptyPages<T>(items: seq<T>, page: int)
    requires page >= 1
    ensures Paginate(items, page) != [] <==>
      page <= (|items| + QuestionsPerPage - 1) / QuestionsPerPage
  {
  }
}
