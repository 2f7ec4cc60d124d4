/** `models/dynamodb_category.py`: the blog categories table listed in
    ascending id order, and the check whether a category name is taken. */
module Categories {
  import opened Wrappers
  import opened Text
  import opened Sorting

  /** A stored `category_id`: a number, or a string written by other code. */
  datatype RawId = NumId(n: int) | StrId(s: string)

  datatype Category = Category(categoryId: Option<RawId>, name: Option<string>, other: map<string, string>)

  /** `int(item.get("category_id", 0))`; None where `int()` raises. */
  function StrictId(c: Category): Option<int> {
    match c.categoryId
    case None => Some(0)
    case Some(NumId(n)) => Some(n)
    case Some(StrId(s)) => ParseInt(s)
  }

  /** The sort key `_id`: the same, with 0 where `int()` raises. */
  function SortId(c: Category): int {
    StrictId(c).GetOr(0)
  }

  predicate ByIdAsc(a: Category, b: Category) {
    SortId(a) <= SortId(b)
  }

  lemma ByIdAscIsTotalPreorder()
    ensures TotalPreorder(ByIdAsc)
  {
  }

  /** What one category decides in the loop of `category_name_exists`:
      nothing (`None`), True, or the ValueError of `int()`. */
  function Decision(c: Category, name: string, excludeId: Option<int>): Option<Result<bool, string>> {
    if c.name != Some(name) then None
    else if excludeId.None? then Some(Ok(true))
    else if StrictId(c).None? then Some(Err("ValueError"))
    else if StrictId(c).value != excludeId.value then Some(Ok(true))
    else None
  }

  /** The loop over `s`: the first category that decides, else False. */
  function NameCheck(s: seq<Category>, name: string, excludeId: Option<int>): Result<bool, string>
    decreases |s|
  {
    if s == [] then Ok(false)
    else if Decision(s[0], name, excludeId).Some? then Decision(s[0], name, excludeId).value
    else NameCheck(s[1..], name, excludeId)
  }

  /** The categories table, in scan order. */
  class CategoryTable {
    var items: seq<Category>

    constructor(initial: seq<Category>)
      ensures items == initial
    {
      items := initial;
    }

    /** `list_blog_categories_all`. */
    function ListAll(): seq<Category>
      reads this
    {
      Sort(items, ByIdAsc)
    }

    /** `category_name_exists(name, exclude_id)`; it only reads the table. */
    method CategoryNameExists(name: string, excludeId: Option<int>) returns (r: Result<bool, string>)
      ensures r == NameCheck(ListAll(), name, excludeId)
    {
      var all := ListAll();
      for i := 0 to |all|
        invariant NameCheck(all, name, excludeId) == NameCheck(all[i..], name, excludeId)
      {
        assert all[i..][1..] == all[i + 1..];
        var d := Decision(all[i], name, excludeId);
        if d.Some? {
          return d.value;
        }
      }
      return Ok(false);
    }
  }

  /** `list_blog_categories_all` returns the scanned categories rearranged,
      in ascending id order. */
  lemma ListAllSpec(table: CategoryTable)
    ensures multiset(table.ListAll()) == multiset(table.items)
    ensures Sorted(table.ListAll(), ByIdAsc)
  {
    ByIdAscIsTotalPreorder();
    SortSorted(table.items, ByIdAsc);
  }

  /** Without `exclude_id` the answer is whether some category has exactly
      that name; it cannot fail. */
  lemma {:induction false} NameCheckWithoutExclude(s: seq<Category>, name: string)
    ensures NameCheck(s, name, None) == Ok(exists i :: 0 <= i < |s| && s[i].name == Some(name))
    decreases |s|
  {
    if s != [] {
      NameCheckWithoutExclude(s[1..], name);
      if s[0].name != Some(name) {
        assert (exists i :: 0 <= i < |s| && s[i].name == Some(name))
          <==> (exists i :: 0 <= i < |s[1..]| && s[1..][i].name == Some(name)) by {
          if exists i :: 0 <= i < |s| && s[i].name == Some(name) {
            var i :| 0 <= i < |s| && s[i].name == Some(name);
            assert s[1..][i - 1] == s[i];
          }
          if exists i :: 0 <= i < |s[1..]| && s[1..][i].name == Some(name) {
            var i :| 0 <= i < |s[1..]| && s[1..][i].name == Some(name);
            assert s[i + 1] == s[1..][i];
          }
        }
      }
    }
  }

  /** With `exclude_id`, and every id of a category with that name readable
      by `int()`, the name is taken exactly when a category with a
      different id bears it: a category keeps its own name. */
  lemma {:induction false} NameCheckWithExclude(s: seq<Category>, name: string, excludeId: int)
    requires forall i :: 0 <= i < |s| && s[i].name == Some(name) ==> StrictId(s[i]).Some?
    ensures NameCheck(s, name, Some(excludeId)) ==
      Ok(exists i :: 0 <= i < |s| && s[i].name == Some(name) && StrictId(s[i]).value != excludeId)
    decreases |s|
  {
    if s != [] {
      assert forall i :: 0 <= i < |s[1..]| ==> s[1..][i] == s[i + 1];
      NameCheckWithExclude(s[1..], name, excludeId);
      if Decision(s[0], name, Some(excludeId)).None? {
        if exists i :: 0 <= i < |s| && s[i].name == Some(name) && StrictId(s[i]).value != excludeId {
          var i :| 0 <= i < |s| && s[i].name == Some(name) && StrictId(s[i]).value != excludeId;
          assert s[1..][i - 1] == s[i];
        }
      }
    }
  }

  /** The only category with the name, checked against its own id, is not
      reported as a clash. */
  lemma KeepsOwnName(s: seq<Category>, name: string, excludeId: int)
    requires forall i :: 0 <= i < |s| && s[i].name == Some(name) ==> StrictId(s[i]) == Some(excludeId)
    ensures NameCheck(s, name, Some(excludeId)) == Ok(false)
  {
    NameCheckWithExclude(s, name, excludeId);
  }

  /** A matching category whose id `int()` cannot read makes the check raise,
      unless an earlier one already answered True. */
  lemma {:induction false} NameCheckRaises(s: seq<Category>, name: string, excludeId: int, k: nat)
    requires k < |s| && s[k].name == Some(name) && StrictId(s[k]).None?
    requires forall i :: 0 <= i < k ==> Decision(s[i], name, Some(excludeId)).None?
    ensures NameCheck(s, name, Some(excludeId)).Err?
    decreases k
  {
    if k > 0 {
      assert forall i :: 0 <= i < k - 1 ==> s[1..][i] == s[i + 1];
      NameCheckRaises(s[1..], name, excludeId, k - 1);
    }
  }
}
