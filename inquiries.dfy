/** `models/dynamodb_inquiry.py`: the contact-form inquiries table with its
    creation, listing newest first, lookup, deletion and offset pagination. */
module Inquiries {
  import opened Wrappers
  import opened Sorting
  import opened PySlice
  import opened Tables

  /** An inquiry item; `timestamp` is the epoch second it was sent, absent on
      items written by other means. */
  datatype Inquiry = Inquiry(
    id: string, name: string, email: string, title: string, text: string,
    date: string, timestamp: Option<int>)

  function InquiryKey(q: Inquiry): string { q.id }

  /** `x.get("timestamp", 0)`. */
  function Timestamp(q: Inquiry): int { q.timestamp.GetOr(0) }

  /** `sort(key=timestamp, reverse=True)`. */
  predicate NewerFirst(a: Inquiry, b: Inquiry) {
    Timestamp(a) >= Timestamp(b)
  }

  lemma NewerFirstIsTotalPreorder()
    ensures TotalPreorder(NewerFirst)
  {
  }

  /** `get_all(limit=1000)` is what `paginate` pages through. */
  const PaginateLimit := 1000

  /** The dict `paginate` returns. */
  datatype InquiryPage = InquiryPage(
    items: seq<Inquiry>, page: int, perPage: int, total: nat, pages: int,
    hasPrev: bool, hasNext: bool, prevNum: Option<int>, nextNum: Option<int>)

  /** The inquiries table, keyed by `id`, in scan order. */
  class InquiryTable {
    var items: seq<Inquiry>

    ghost predicate Valid()
      reads this
    {
      DistinctKeys(items, InquiryKey)
    }

    constructor(initial: seq<Inquiry>)
      ensures items == initial
    {
      items := initial;
    }

    /** `create`: `id` is the fresh `uuid4`, `date` and `timestamp` the
        clock's readings. */
    method Create(name: string, email: string, title: string, text: string,
      id: string, date: string, timestamp: int) returns (item: Inquiry)
      requires Valid()
      requires !HasKey(items, InquiryKey, id)
      modifies this
      ensures Valid()
      ensures item == Inquiry(id, name, email, title, text, date, Some(timestamp))
      ensures items == old(items) + [item]
    {
      item := Inquiry(id, name, email, title, text, date, Some(timestamp));
      items := Put(items, InquiryKey, item);
    }

    /** `get_all(limit)`. */
    function GetAll(limit: int): seq<Inquiry>
      reads this
    {
      Take(Sort(items, NewerFirst), limit)
    }

    /** `get_by_id`. */
    function GetById(id: string): (r: Option<Inquiry>)
      reads this
      ensures r.None? <==> forall q :: q in items ==> q.id != id
      ensures r.Some? ==> r.value in items && r.value.id == id
    {
      Find(items, InquiryKey, id)
    }

    /** `delete`. */
    method Delete(id: string)
      requires Valid()
      modifies this
      ensures Valid()
      ensures items == Remove(old(items), InquiryKey, id)
    {
      WhereRemoveKey(items, id);
      WhereDistinct(items, q => InquiryKey(q) != id, InquiryKey);
      items := Remove(items, InquiryKey, id);
    }

    /** `paginate(page, per_page)`; a zero `per_page` raises
        ZeroDivisionError when `pages` is computed. */
    function Paginate(page: int, perPage: int): (r: Result<InquiryPage, string>)
      reads this
      ensures r.Err? <==> perPage == 0
      ensures r.Ok? ==>
        var start := (page - 1) * perPage;
        && r.value.items == Slice(GetAll(PaginateLimit), start, start + perPage)
        && r.value.total == |GetAll(PaginateLimit)|
        && r.value.page == page && r.value.perPage == perPage
        && (r.value.hasPrev <==> page > 1)
        && (r.value.hasNext <==> start + perPage < r.value.total)
        && r.value.prevNum == (if page > 1 then Some(page - 1) else None)
        && r.value.nextNum == (if r.value.hasNext then Some(page + 1) else None)
    {
      if perPage == 0 then Err("ZeroDivisionError")
      else
        var all := GetAll(PaginateLimit);
        var total := |all|;
        var start := (page - 1) * perPage;
        var end := start + perPage;
        Ok(InquiryPage(Slice(all, start, end), page, perPage, total,
          FloorDiv(total + perPage - 1, perPage),
          page > 1, end < total,
          if page > 1 then Some(page - 1) else None,
          if end < total then Some(page + 1) else None))
    }
  }

  lemma {:induction false} WhereRemoveKey(s: seq<Inquiry>, id: string)
    ensures Remove(s, InquiryKey, id) == Where(s, q => InquiryKey(q) != id)
    decreases |s|
  {
    if s != [] {
      WhereRemoveKey(s[1..], id);
    }
  }

  /** `get_all` returns the `limit` newest inquiries of the table, newest
      first: each at most as often as it is stored, exactly min(limit, n) of
      them for a non-negative limit, all of them when the limit is not
      reached, and none left out is newer than one returned. */
  lemma GetAllSpec(table: InquiryTable, limit: int)
    ensures var r := table.GetAll(limit);
      && (forall q :: q in r ==> q in table.items)
      && multiset(r) <= multiset(table.items)
      && Sorted(r, NewerFirst)
      && (limit >= 0 ==> |r| == if limit < |table.items| then limit else |table.items|)
      && (limit >= |table.items| ==> multiset(r) == multiset(table.items))
      && (forall p, q :: p in r && q in multiset(table.items) - multiset(r) ==> NewerFirst(p, q))
  {
    NewerFirstIsTotalPreorder();
    TakeSorted(table.items, limit, NewerFirst);
    var r := table.GetAll(limit);
    forall q | q in r ensures q in table.items {
      assert q in multiset(r);
    }
  }

  /** `paginate` counts at most 1000 inquiries, and `pages` is the ceiling
      of total/per_page, 0 when there are none. */
  lemma PaginatePagesSpec(table: InquiryTable, page: int, perPage: int)
    requires perPage > 0
    ensures var r := table.Paginate(page, perPage);
      var total := r.value.total;
      && r.Ok?
      && total == (if |table.items| < PaginateLimit then |table.items| else PaginateLimit)
      && (total == 0 ==> r.value.pages == 0)
      && (total > 0 ==> (r.value.pages - 1) * perPage < total <= r.value.pages * perPage)
  {
    CeilPages(table.Paginate(page, perPage).value.total, perPage);
  }

  /** A page holds at most `per_page` inquiries of the table, newest first;
      for a start inside the list, the ones from `(page-1)*per_page` on. */
  lemma PaginateItemsSpec(table: InquiryTable, page: int, perPage: int)
    requires perPage > 0
    ensures var r := table.Paginate(page, perPage);
      var all := table.GetAll(PaginateLimit);
      var start := (page - 1) * perPage;
      && r.Ok?
      && |r.value.items| <= perPage
      && Sorted(r.value.items, NewerFirst)
      && (forall q :: q in r.value.items ==> q in table.items)
      && (0 <= start < |all| ==>
            r.value.items == all[start..if start + perPage < |all| then start + perPage else |all|])
  {
    var all := table.GetAll(PaginateLimit);
    GetAllSpec(table, PaginateLimit);
    var start := (page - 1) * perPage;
    SortedSlice(all, all, start, perPage, NewerFirst);
    assert table.Paginate(page, perPage).value.items == Slice(all, start, start + perPage);
  }

  /** A created inquiry is found by its id. */
  lemma CreateThenGet(items: seq<Inquiry>, q: Inquiry)
    requires DistinctKeys(items, InquiryKey)
    ensures Find(Put(items, InquiryKey, q), InquiryKey, q.id) == Some(q)
  {
    PutThenFind(items, InquiryKey, q);
  }

  /** After `delete`, the id is gone and every other inquiry is still found. */
  lemma DeleteThenGet(items: seq<Inquiry>, id: string, other: string)
    requires DistinctKeys(items, InquiryKey) && other != id
    ensures Find(Remove(items, InquiryKey, id), InquiryKey, id).None?
    ensures Find(Remove(items, InquiryKey, id), InquiryKey, other) == Find(items, InquiryKey, other)
  {
    var r := Remove(items, InquiryKey, id);
    var a := Find(r, InquiryKey, other);
    var b := Find(items, InquiryKey, other);
    if b.Some? {
      assert b.value in r;
      assert HasKey(r, InquiryKey, other) by {
        var i :| 0 <= i < |r| && r[i] == b.value;
      }
      SameKeySameItem(items, InquiryKey, a.value, b.value);
    }
  }
}
