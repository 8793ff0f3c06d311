/**
 * The two shapes of query result the handlers build: a filtered list of rows
 * (in the order the query returns them) and the `{id: type}` dictionary of
 * categories.
 */
module Filtering {
  import opened Domain

  /** The rows of `s` that satisfy `keep`, in their original order. */
  function Filter<T(!new)>(s: seq<T>, keep: T -> bool): (r: seq<T>)
    ensures |r| <= |s|
    ensures forall x :: x in r <==> x in s && keep(x)
  {
    if s == [] then []
    else (if keep(s[0]) then [s[0]] else []) + Filter(s[1..], keep)
  }

  /** Filtering keeps the relative order: it distributes over concatenation. */
  lemma {:induction false} FilterAppend<T(!new)>(a: seq<T>, b: seq<T>, keep: T -> bool)
    ensures Filter(a + b, keep) == Filter(a, keep) + Filter(b, keep)
  {
    if a != [] {
      assert (a + b)[1..] == a[1..] + b;
      FilterAppend(a[1..], b, keep);
    } else {
      assert a + b == b;
    }
  }

  /** A filter whose predicate holds of every row returns the list unchanged. */
  lemma {:induction false} FilterKeepsAll<T(!new)>(s: seq<T>, keep: T -> bool)
    requires forall x :: x in s ==> keep(x)
    ensures Filter(s, keep) == s
  {
    if s != [] {
      FilterKeepsAll(s[1..], keep);
    }
  }

  /** A filtered list of stored questions still has unique ids. */
  lemma {:induction false} FilterKeepsUniqueIds(s: seq<Question>, keep: Question -> bool)
    requires UniqueIds(s)
    ensures UniqueIds(Filter(s, keep))
  {
    if s != [] {
      FilterKeepsUniqueIds(s[1..], keep);
      var rest := Filter(s[1..], keep);
      forall q | q in rest ensures q.id != s[0].id {
        var j :| 0 <= j < |s[1..]| && s[1..][j] == q;
        assert s[j + 1] == q;
      }
    }
  }

  /** Questions of one category (`filter_by(category=...)`). */
  function InCategory(categoryId: int): Question -> bool {
    (q: Question) => q.category == categoryId
  }

  /**
   * `{category.id: category.type for category in categories}`: a later entry
   * with the same id overrides an earlier one, as in a Python dictionary.
   */
  function CategoryMap(categories: seq<Category>): (m: map<int, string>)
    ensures m.Keys == set c | c in categories :: c.id
  {
    if categories == [] then map[]
    else
      var last := categories[|categories| - 1];
      var init := categories[..|categories| - 1];
      assert categories == init + [last];
      CategoryMap(init)[last.id := last.typeName]
  }

  /** Category ids are unique (the table's primary key). */
  predicate UniqueCategoryIds(categories: seq<Category>) {
    forall i, j :: 0 <= i < j < |categories| ==> categories[i].id != categories[j].id
  }

  /** With unique ids every category is listed under its own id with its own type. */
  lemma {:induction false} CategoryMapLookup(categories: seq<Category>)
    requires UniqueCategoryIds(categories)
    ensures forall c :: c in categories ==> c.id in CategoryMap(categories) && CategoryMap(categories)[c.id] == c.typeName
  {
    if categories != [] {
      var last := categories[|categories| - 1];
      var init := categories[..|categories| - 1];
      assert categories == init + [last];
      CategoryMapLookup(init);
      forall c | c in categories
        ensures c.id in CategoryMap(categories) && CategoryMap(categories)[c.id] == c.typeName
      {
        if c != last {
          assert c in init;
          var i :| 0 <= i < |init| && init[i] == c;
          assert categories[i] == c;
        }
      }
    }
  }
}
