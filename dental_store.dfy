/** The dental-news table of views/news/autotransplant_news.py: records keyed by
    "URL#" + sha256(url) with the fixed sort key "METADATA", an at-most-once
    conditional put, and the global secondary index `gsi1` (partition
    "KIND#<kind>#LANG#<lang>", sort key `gsi1sk`) queried newest first. */
module DentalStore {
  import opened Wrappers
  import opened Lex

  /** The dict a collector hands to `put_unique_dental`; `None` is a missing key
      or a Python None. */
  datatype Article = Article(
    url: string, title: Option<string>, source: Option<string>, kind: Option<string>,
    lang: Option<string>, publishedAt: Option<string>, summary: Option<string>,
    imageUrl: Option<string>, author: Option<string>)

  /** One stored item. */
  datatype Record = Record(
    pk: string, sk: string,
    url: string, title: Option<string>, source: Option<string>, kind: Option<string>,
    lang: Option<string>, publishedAt: Option<string>, summary: Option<string>,
    imageUrl: Option<string>, author: Option<string>,
    gsi1pk: string, gsi1sk: string)

  /** DynamoDB's LastEvaluatedKey / ExclusiveStartKey for `gsi1`: the table key
      and the index key of the last item read. */
  datatype StartKey = StartKey(pk: string, sk: string, gsi1pk: string, gsi1sk: string)

  /** Position of an item inside one index partition. */
  datatype Entry = Entry(sortKey: string, pk: string)

  const MetadataSk := "METADATA"
  const MissingPublishedAt := "0001-01-01T00:00:00Z"

  /** `f"{x}"`: a None is rendered as the text "None". */
  function Shown(o: Option<string>): string {
    match o
    case None => "None"
    case Some(s) => s
  }

  /** Python truthiness of an optional string: present and non-empty. */
  predicate Truthy(o: Option<string>) {
    o.Some? && o.value != ""
  }

  function PartitionKey(kind: string, lang: string): string {
    "KIND#" + kind + "#LANG#" + lang
  }

  function PrimaryKey(hash: string -> string, url: string): string {
    "URL#" + hash(url)
  }

  /** `published_at or "0001-01-01T00:00:00Z"`. */
  function IndexSortKey(publishedAt: Option<string>): (r: string)
    ensures r != ""
    ensures Truthy(publishedAt) ==> r == publishedAt.value
    ensures !Truthy(publishedAt) ==> r == MissingPublishedAt
  {
    if Truthy(publishedAt) then publishedAt.value else MissingPublishedAt
  }

  /** The item `put_unique_dental` writes for an article. */
  function RecordOf(hash: string -> string, a: Article): Record {
    Record(PrimaryKey(hash, a.url), MetadataSk, a.url, a.title, a.source, a.kind, a.lang,
           a.publishedAt, a.summary, a.imageUrl, a.author,
           PartitionKey(Shown(a.kind), Shown(a.lang)), IndexSortKey(a.publishedAt))
  }

  /** The keys of a stored item are the ones derived from its own attributes. */
  predicate WellFormed(hash: string -> string, r: Record) {
    && r.pk == PrimaryKey(hash, r.url)
    && r.sk == MetadataSk
    && r.gsi1pk == PartitionKey(Shown(r.kind), Shown(r.lang))
    && r.gsi1sk == IndexSortKey(r.publishedAt)
  }

  /** Every item put_unique_dental writes has the derived keys, and keeps the
      article's attributes. */
  lemma RecordOfWellFormed(hash: string -> string, a: Article)
    ensures WellFormed(hash, RecordOf(hash, a))
    ensures RecordOf(hash, a).url == a.url && RecordOf(hash, a).title == a.title
    ensures RecordOf(hash, a).summary == a.summary && RecordOf(hash, a).publishedAt == a.publishedAt
  {
  }

  function EntryOf(r: Record): Entry {
    Entry(r.gsi1sk, r.pk)
  }

  function StartKeyOf(r: Record): StartKey {
    StartKey(r.pk, r.sk, r.gsi1pk, r.gsi1sk)
  }

  function Position(k: StartKey): Entry {
    Entry(k.gsi1sk, k.pk)
  }

  // ----- ordering of index entries -----

  /** Strict order of entries: by index sort key, ties broken by table key. */
  predicate EntryLt(x: Entry, y: Entry) {
    StrLt(x.sortKey, y.sortKey) || (x.sortKey == y.sortKey && StrLt(x.pk, y.pk))
  }

  lemma EntryLtIrreflexive(x: Entry)
    ensures !EntryLt(x, x)
  {
    StrLtIrreflexive(x.sortKey);
    StrLtIrreflexive(x.pk);
  }

  lemma EntryLtTransitive(x: Entry, y: Entry, z: Entry)
    requires EntryLt(x, y) && EntryLt(y, z)
    ensures EntryLt(x, z)
  {
    if StrLt(x.sortKey, y.sortKey) && StrLt(y.sortKey, z.sortKey) {
      StrLtTransitive(x.sortKey, y.sortKey, z.sortKey);
    } else if x.sortKey == y.sortKey && y.sortKey == z.sortKey {
      StrLtTransitive(x.pk, y.pk, z.pk);
    }
  }

  lemma EntryLtTotal(x: Entry, y: Entry)
    ensures x == y || EntryLt(x, y) || EntryLt(y, x)
  {
    StrLtTotal(x.sortKey, y.sortKey);
    StrLtTotal(x.pk, y.pk);
  }

  lemma EntryLtAsymmetric(x: Entry, y: Entry)
    ensures !(EntryLt(x, y) && EntryLt(y, x))
  {
    StrLtAsymmetric(x.sortKey, y.sortKey);
    StrLtAsymmetric(x.pk, y.pk);
    StrLtIrreflexive(x.sortKey);
  }

  /** Index order with `ScanIndexForward=False`: strictly descending. */
  predicate Desc(s: seq<Entry>) {
    forall i, j {:trigger EntryLt(s[j], s[i])} :: 0 <= i < j < |s| ==> EntryLt(s[j], s[i])
  }

  /** Places a new entry at its position in a descending partition. */
  function InsertDesc(e: Entry, s: seq<Entry>): seq<Entry> {
    if s == [] then [e]
    else if EntryLt(s[0], e) then [e] + s
    else [s[0]] + InsertDesc(e, s[1..])
  }

  /** The partition without the entry of table key `pk`. */
  function RemovePk(s: seq<Entry>, pk: string): seq<Entry> {
    if s == [] then []
    else if s[0].pk == pk then RemovePk(s[1..], pk)
    else [s[0]] + RemovePk(s[1..], pk)
  }

  /** The entries strictly after position `x` when reading descending. */
  function Below(s: seq<Entry>, x: Entry): seq<Entry> {
    if s == [] then []
    else if EntryLt(s[0], x) then [s[0]] + Below(s[1..], x)
    else Below(s[1..], x)
  }

  lemma {:induction false} DescTail(s: seq<Entry>)
    requires Desc(s) && s != []
    ensures Desc(s[1..])
    ensures forall y :: y in s[1..] ==> EntryLt(y, s[0])
  {
    forall y | y in s[1..] ensures EntryLt(y, s[0]) {
      var j :| 0 <= j < |s[1..]| && s[1..][j] == y;
      assert s[j + 1] == y;
    }
  }

  lemma {:induction false} DescCons(x: Entry, s: seq<Entry>)
    requires Desc(s)
    requires forall y :: y in s ==> EntryLt(y, x)
    ensures Desc([x] + s)
  {
    var t := [x] + s;
    forall i, j | 0 <= i < j < |t| ensures EntryLt(t[j], t[i]) {
      if i > 0 {
        assert t[i] == s[i - 1] && t[j] == s[j - 1];
      } else {
        assert t[j] == s[j - 1];
        assert t[j] in s;
      }
    }
  }

  lemma {:induction false} InsertDescMembers(e: Entry, s: seq<Entry>)
    ensures forall y :: y in InsertDesc(e, s) <==> y == e || y in s
    decreases |s|
  {
    if s != [] && !EntryLt(s[0], e) {
      InsertDescMembers(e, s[1..]);
      assert s == [s[0]] + s[1..];
    }
  }

  lemma {:induction false} InsertDescFacts(e: Entry, s: seq<Entry>)
    requires Desc(s) && e !in s
    ensures Desc(InsertDesc(e, s))
    ensures forall y :: y in InsertDesc(e, s) <==> y == e || y in s
    decreases |s|
  {
    if s == [] {
    } else if EntryLt(s[0], e) {
      DescTail(s);
      forall y | y in s ensures EntryLt(y, e) {
        if y != s[0] {
          assert y in s[1..] by {
            var j :| 0 <= j < |s| && s[j] == y;
            assert s[1..][j - 1] == y;
          }
          EntryLtTransitive(y, s[0], e);
        }
      }
      DescCons(e, s);
    } else {
      EntryLtTotal(s[0], e);
      DescTail(s);
      assert e !in s[1..];
      InsertDescFacts(e, s[1..]);
      var t := InsertDesc(e, s[1..]);
      forall y | y in t ensures EntryLt(y, s[0]) {
      }
      DescCons(s[0], t);
      assert s == [s[0]] + s[1..];
    }
  }

  lemma {:induction false} RemovePkFacts(s: seq<Entry>, pk: string)
    ensures forall y :: y in RemovePk(s, pk) <==> y in s && y.pk != pk
    ensures Desc(s) ==> Desc(RemovePk(s, pk))
    decreases |s|
  {
    if s != [] {
      RemovePkFacts(s[1..], pk);
      assert s == [s[0]] + s[1..];
      if Desc(s) {
        DescTail(s);
        if s[0].pk != pk {
          DescCons(s[0], RemovePk(s[1..], pk));
        }
      }
    }
  }

  lemma {:induction false} BelowFacts(s: seq<Entry>, x: Entry)
    ensures forall y :: y in Below(s, x) <==> y in s && EntryLt(y, x)
    ensures Desc(s) ==> Desc(Below(s, x))
    decreases |s|
  {
    if s != [] {
      BelowFacts(s[1..], x);
      assert s == [s[0]] + s[1..];
      if Desc(s) {
        DescTail(s);
        if EntryLt(s[0], x) {
          DescCons(s[0], Below(s[1..], x));
        }
      }
    }
  }

  lemma {:induction false} BelowAppend(a: seq<Entry>, b: seq<Entry>, x: Entry)
    ensures Below(a + b, x) == Below(a, x) + Below(b, x)
    decreases |a|
  {
    if a == [] {
      assert a + b == b;
    } else {
      assert (a + b)[0] == a[0];
      assert (a + b)[1..] == a[1..] + b;
      BelowAppend(a[1..], b, x);
    }
  }

  lemma {:induction false} BelowNone(s: seq<Entry>, x: Entry)
    requires forall y :: y in s ==> !EntryLt(y, x)
    ensures Below(s, x) == []
    decreases |s|
  {
    if s != [] {
      assert s[0] in s;
      assert forall y :: y in s[1..] ==> y in s;
      BelowNone(s[1..], x);
    }
  }

  lemma {:induction false} BelowAll(s: seq<Entry>, x: Entry)
    requires forall y :: y in s ==> EntryLt(y, x)
    ensures Below(s, x) == s
    decreases |s|
  {
    if s != [] {
      assert s[0] in s;
      assert forall y :: y in s[1..] ==> y in s;
      BelowAll(s[1..], x);
      assert s == [s[0]] + s[1..];
    }
  }

  lemma {:induction false} RemovePkAbsent(s: seq<Entry>, pk: string)
    requires forall y :: y in s ==> y.pk != pk
    ensures RemovePk(s, pk) == s
    decreases |s|
  {
    if s != [] {
      assert s[0] in s;
      assert forall y :: y in s[1..] ==> y in s;
      RemovePkAbsent(s[1..], pk);
      assert s == [s[0]] + s[1..];
    }
  }

  lemma {:induction false} RemovePkAppend(a: seq<Entry>, b: seq<Entry>, pk: string)
    ensures RemovePk(a + b, pk) == RemovePk(a, pk) + RemovePk(b, pk)
    decreases |a|
  {
    if a == [] {
      assert a + b == b;
    } else {
      assert (a + b)[0] == a[0];
      assert (a + b)[1..] == a[1..] + b;
      RemovePkAppend(a[1..], b, pk);
    }
  }

  /** The stored records read through a page of entries. */
  function RecordsOf(rows: map<string, Record>, es: seq<Entry>): (r: seq<Record>)
    requires forall e :: e in es ==> e.pk in rows
    ensures |r| == |es|
    ensures forall i :: 0 <= i < |es| ==> r[i] == rows[es[i].pk]
  {
    if es == [] then [] else [rows[es[0].pk]] + RecordsOf(rows, es[1..])
  }

  /** One `query` response: `Items` and `LastEvaluatedKey`. */
  datatype Page = Page(items: seq<Record>, next: Option<StartKey>)

  /** What holds of the table at all times: every item has its derived keys,
      every partition is in index order, and the index lists exactly the items. */
  ghost predicate TableInv(hash: string -> string, rows: map<string, Record>, index: map<string, seq<Entry>>) {
    RowsKeyed(hash, rows) && IndexSorted(index) && IndexSound(rows, index) && IndexComplete(rows, index)
  }

  function PartitionOf(index: map<string, seq<Entry>>, p: string): seq<Entry> {
    if p in index then index[p] else []
  }

  predicate RowsKeyed(hash: string -> string, rows: map<string, Record>) {
    forall k :: k in rows ==> rows[k].pk == k && WellFormed(hash, rows[k])
  }

  predicate IndexSorted(index: map<string, seq<Entry>>) {
    forall q :: q in index ==> Desc(index[q])
  }

  /** Every index entry points at a stored item of that partition and sort key. */
  predicate IndexSound(rows: map<string, Record>, index: map<string, seq<Entry>>) {
    forall q: string, e: Entry {:trigger e in index[q]} :: q in index && e in index[q] ==>
      e.pk in rows && rows[e.pk].gsi1pk == q && rows[e.pk].gsi1sk == e.sortKey
  }

  /** Every stored item is listed in its partition. */
  predicate IndexComplete(rows: map<string, Record>, index: map<string, seq<Entry>>) {
    forall k :: k in rows ==> rows[k].gsi1pk in index && EntryOf(rows[k]) in index[rows[k].gsi1pk]
  }

  lemma SoundAfterInsert(rows: map<string, Record>, index: map<string, seq<Entry>>, rec: Record)
    requires IndexSound(rows, index) && rec.pk !in rows
    ensures IndexSound(rows[rec.pk := rec],
                       index[rec.gsi1pk := InsertDesc(EntryOf(rec), PartitionOf(index, rec.gsi1pk))])
  {
    var rows' := rows[rec.pk := rec];
    var part := PartitionOf(index, rec.gsi1pk);
    InsertDescMembers(EntryOf(rec), part);
    var index' := index[rec.gsi1pk := InsertDesc(EntryOf(rec), part)];
    forall q: string, e: Entry | q in index' && e in index'[q]
      ensures e.pk in rows' && rows'[e.pk].gsi1pk == q && rows'[e.pk].gsi1sk == e.sortKey
    {
      if e != EntryOf(rec) {
        assert e in index[q];
        assert e.pk != rec.pk;
      }
    }
  }

  lemma CompleteAfterInsert(rows: map<string, Record>, index: map<string, seq<Entry>>, rec: Record)
    requires IndexSound(rows, index) && IndexComplete(rows, index) && rec.pk !in rows
    ensures IndexComplete(rows[rec.pk := rec],
                          index[rec.gsi1pk := InsertDesc(EntryOf(rec), PartitionOf(index, rec.gsi1pk))])
  {
    var part := PartitionOf(index, rec.gsi1pk);
    InsertDescMembers(EntryOf(rec), part);
  }

  lemma SortedAfterInsert(rows: map<string, Record>, index: map<string, seq<Entry>>, rec: Record)
    requires IndexSorted(index) && IndexSound(rows, index) && rec.pk !in rows
    ensures IndexSorted(index[rec.gsi1pk := InsertDesc(EntryOf(rec), PartitionOf(index, rec.gsi1pk))])
  {
    var part := PartitionOf(index, rec.gsi1pk);
    assert EntryOf(rec) !in part;
    InsertDescFacts(EntryOf(rec), part);
  }

  /** The invariant survives the conditional put of a new item. */
  lemma InvAfterInsert(hash: string -> string, rows: map<string, Record>, index: map<string, seq<Entry>>, a: Article)
    requires TableInv(hash, rows, index)
    requires PrimaryKey(hash, a.url) !in rows
    ensures var rec := RecordOf(hash, a);
            TableInv(hash, rows[rec.pk := rec],
                     index[rec.gsi1pk := InsertDesc(EntryOf(rec), PartitionOf(index, rec.gsi1pk))])
  {
    var rec := RecordOf(hash, a);
    SoundAfterInsert(rows, index, rec);
    CompleteAfterInsert(rows, index, rec);
    SortedAfterInsert(rows, index, rec);
    assert RowsKeyed(hash, rows[rec.pk := rec]);
  }

  lemma SoundAfterDelete(rows: map<string, Record>, index: map<string, seq<Entry>>, pk: string)
    requires IndexSound(rows, index) && pk in rows && rows[pk].gsi1pk in index
    ensures var p := rows[pk].gsi1pk;
            IndexSound(rows - {pk}, index[p := RemovePk(index[p], pk)])
  {
    var p := rows[pk].gsi1pk;
    RemovePkFacts(index[p], pk);
    var rows' := rows - {pk};
    var index' := index[p := RemovePk(index[p], pk)];
    forall q: string, e: Entry | q in index' && e in index'[q]
      ensures e.pk in rows' && rows'[e.pk].gsi1pk == q && rows'[e.pk].gsi1sk == e.sortKey
    {
      assert e in index[q];
    }
  }

  lemma CompleteAfterDelete(rows: map<string, Record>, index: map<string, seq<Entry>>, pk: string)
    requires IndexComplete(rows, index) && (forall k :: k in rows ==> rows[k].pk == k) && pk in rows
    ensures var p := rows[pk].gsi1pk;
            IndexComplete(rows - {pk}, index[p := RemovePk(index[p], pk)])
  {
    var p := rows[pk].gsi1pk;
    RemovePkFacts(index[p], pk);
  }

  /** The invariant survives deleting a stored item. */
  lemma InvAfterDelete(hash: string -> string, rows: map<string, Record>, index: map<string, seq<Entry>>, pk: string)
    requires TableInv(hash, rows, index)
    requires pk in rows
    ensures var p := rows[pk].gsi1pk;
            TableInv(hash, rows - {pk}, index[p := RemovePk(index[p], pk)])
  {
    var p := rows[pk].gsi1pk;
    SoundAfterDelete(rows, index, pk);
    CompleteAfterDelete(rows, index, pk);
    RemovePkFacts(index[p], pk);
    assert IndexSorted(index[p := RemovePk(index[p], pk)]);
  }

  /** Within a partition no table key occurs twice. */
  lemma DistinctPks(hash: string -> string, rows: map<string, Record>, index: map<string, seq<Entry>>, p: string)
    requires TableInv(hash, rows, index)
    ensures forall i, j :: 0 <= i < j < |PartitionOf(index, p)| ==>
              PartitionOf(index, p)[i].pk != PartitionOf(index, p)[j].pk
  {
    var s := PartitionOf(index, p);
    forall i, j | 0 <= i < j < |s|
      ensures s[i].pk != s[j].pk
    {
      assert s[i] in s && s[j] in s;
      assert EntryLt(s[j], s[i]);
      if s[i].pk == s[j].pk {
        EntryLtIrreflexive(s[i]);
      }
    }
  }

  /** The DynamoDB table behind `current_app.config["DENTAL_TABLE"]`. */
  class DentalTable {
    /** sha256 hex digest of the URL (`_hash_url`). */
    const hash: string -> string
    var rows: map<string, Record>
    /** `gsi1`: each partition's entries, newest first. */
    var index: map<string, seq<Entry>>

    ghost predicate Valid()
      reads this
    {
      TableInv(hash, rows, index)
    }

    constructor(hash: string -> string)
      ensures Valid()
      ensures this.hash == hash && rows == map[] && index == map[]
    {
      this.hash := hash;
      rows := map[];
      index := map[];
    }

    /** The entries of one index partition. */
    function Partition(p: string): seq<Entry>
      reads this
    {
      PartitionOf(index, p)
    }

    /** Where a query resumes: all of the partition, or what lies after the start key. */
    function Remaining(p: string, start: Option<StartKey>): seq<Entry>
      reads this
    {
      match start
      case None => Partition(p)
      case Some(k) => Below(Partition(p), Position(k))
    }

    lemma RemainingFacts(p: string, start: Option<StartKey>)
      requires Valid()
      ensures Desc(Remaining(p, start))
      ensures forall e :: e in Remaining(p, start) ==>
                e in Partition(p) && e.pk in rows && rows[e.pk].gsi1pk == p && rows[e.pk].gsi1sk == e.sortKey
    {
      if start.Some? {
        BelowFacts(Partition(p), Position(start.value));
      }
    }

    /** `put_unique_dental` (`put_item` with `attribute_not_exists(pk)`).
        `fault` is a ClientError other than ConditionalCheckFailedException,
        which the source re-raises. */
    method PutUnique(a: Article, fault: Option<string>) returns (r: Result<bool, string>)
      requires Valid()
      modifies this
      ensures Valid()
      ensures fault.Some? ==> r == Err(fault.value) && rows == old(rows) && index == old(index)
      ensures fault.None? && PrimaryKey(hash, a.url) in old(rows) ==>
                r == Ok(false) && rows == old(rows) && index == old(index)
      ensures fault.None? && PrimaryKey(hash, a.url) !in old(rows) ==>
                && r == Ok(true)
                && rows == old(rows)[PrimaryKey(hash, a.url) := RecordOf(hash, a)]
                && var rec := RecordOf(hash, a);
                   index == old(index)[rec.gsi1pk := InsertDesc(EntryOf(rec), old(Partition(rec.gsi1pk)))]
    {
      if fault.Some? {
        return Err(fault.value);
      }
      var pk := PrimaryKey(hash, a.url);
      if pk in rows {
        return Ok(false);
      }
      var rec := RecordOf(hash, a);
      InvAfterInsert(hash, rows, index, a);
      rows := rows[pk := rec];
      index := index[rec.gsi1pk := InsertDesc(EntryOf(rec), Partition(rec.gsi1pk))];
      r := Ok(true);
    }

    /** `delete_item(Key={"pk": pk, "sk": sk})`; `fault` is an exception the
        call raises, in which case nothing is deleted. */
    method Delete(pk: string, fault: bool) returns (ok: bool)
      requires Valid()
      modifies this
      ensures Valid()
      ensures ok == !fault
      ensures fault || pk !in old(rows) ==> rows == old(rows) && index == old(index)
      ensures !fault && pk in old(rows) ==>
                && rows == old(rows) - {pk}
                && var p := old(rows)[pk].gsi1pk;
                   index == old(index)[p := RemovePk(old(index)[p], pk)]
    {
      if fault {
        return false;
      }
      if pk !in rows {
        return true;
      }
      var p := rows[pk].gsi1pk;
      InvAfterDelete(hash, rows, index, pk);
      rows := rows - {pk};
      index := index[p := RemovePk(index[p], pk)];
      ok := true;
    }

    /** `dental_query_items`: `query(IndexName="gsi1", KeyConditionExpression=
        gsi1pk == p, ScanIndexForward=False, Limit=limit, ExclusiveStartKey=start)`.
        DynamoDB rejects a Limit below 1, and returns a LastEvaluatedKey whenever
        the Limit was reached. */
    function Query(p: string, limit: int, start: Option<StartKey>): (r: Result<Page, string>)
      reads this
      requires Valid()
      ensures r.Err? <==> limit < 1
      ensures r.Ok? ==> |r.value.items| == if |Remaining(p, start)| < limit then |Remaining(p, start)| else limit
      ensures r.Ok? ==> (r.value.next.Some? <==> |Remaining(p, start)| >= limit)
    {
      if limit < 1 then Err("ValidationException: Limit must be at least 1")
      else
        var rest := Remaining(p, start);
        RemainingFacts(p, start);
        var n := if |rest| < limit then |rest| else limit;
        var items := RecordsOf(rows, rest[..n]);
        Ok(Page(items, if |rest| >= limit then Some(StartKeyOf(items[n - 1])) else None))
    }

    /** The page is the stored items at the head of what remains after the start key. */
    lemma QueryReadsRemaining(p: string, limit: int, start: Option<StartKey>)
      requires Valid() && limit >= 1
      ensures var items := Query(p, limit, start).value.items;
              forall i :: 0 <= i < |items| ==>
                && EntryOf(items[i]) == Remaining(p, start)[i]
                && items[i].pk in rows && rows[items[i].pk] == items[i]
    {
      RemainingFacts(p, start);
    }

    /** At most `limit` items, all of the requested partition. */
    lemma QueryWithinPartition(p: string, limit: int, start: Option<StartKey>)
      requires Valid() && limit >= 1
      ensures var items := Query(p, limit, start).value.items;
              |items| <= limit && forall i :: 0 <= i < |items| ==> items[i].gsi1pk == p
    {
      RemainingFacts(p, start);
    }

    /** Items come newest first: `gsi1sk` never increases along the page. */
    lemma QueryNewestFirst(p: string, limit: int, start: Option<StartKey>)
      requires Valid() && limit >= 1
      ensures var items := Query(p, limit, start).value.items;
              forall i, j :: 0 <= i < j < |items| ==> StrLe(items[j].gsi1sk, items[i].gsi1sk)
    {
      var items := Query(p, limit, start).value.items;
      var rest := Remaining(p, start);
      RemainingFacts(p, start);
      QueryReadsRemaining(p, limit, start);
      forall i, j | 0 <= i < j < |items|
        ensures StrLe(items[j].gsi1sk, items[i].gsi1sk)
      {
        assert EntryLt(rest[j], rest[i]);
      }
    }

    /** The LastEvaluatedKey is the key of the last item returned. */
    lemma QueryNextIsLast(p: string, limit: int, start: Option<StartKey>)
      requires Valid() && limit >= 1
      requires Query(p, limit, start).value.next.Some?
      ensures var page := Query(p, limit, start).value;
              page.items != [] && page.next.value == StartKeyOf(page.items[|page.items| - 1])
    {
    }

    /** Every item of a page resumed from `k` is strictly older than `k`. */
    lemma QueryBelowStart(p: string, limit: int, k: StartKey)
      requires Valid() && limit >= 1
      ensures forall y :: y in Query(p, limit, Some(k)).value.items ==> EntryLt(EntryOf(y), Position(k))
    {
      var items := Query(p, limit, Some(k)).value.items;
      QueryReadsRemaining(p, limit, Some(k));
      BelowFacts(Partition(p), Position(k));
      forall y | y in items
        ensures EntryLt(EntryOf(y), Position(k))
      {
        var j :| 0 <= j < |items| && items[j] == y;
        assert EntryOf(y) in Remaining(p, Some(k));
      }
    }

    /** The last item of a page is its oldest. */
    lemma QueryLastIsOldest(p: string, limit: int, start: Option<StartKey>)
      requires Valid() && limit >= 1
      requires Query(p, limit, start).value.items != []
      ensures var items := Query(p, limit, start).value.items;
              forall i :: 0 <= i < |items| - 1 ==> EntryLt(EntryOf(items[|items| - 1]), EntryOf(items[i]))
    {
      var items := Query(p, limit, start).value.items;
      var rest := Remaining(p, start);
      RemainingFacts(p, start);
      QueryReadsRemaining(p, limit, start);
      forall i | 0 <= i < |items| - 1
        ensures EntryLt(EntryOf(items[|items| - 1]), EntryOf(items[i]))
      {
        assert EntryOf(items[i]) == rest[i] && EntryOf(items[|items| - 1]) == rest[|items| - 1];
      }
    }

    /** Resuming from a page's LastEvaluatedKey yields only items strictly after
        every item of that page. */
    lemma QueryResumesAfterLast(p: string, limit: int, start: Option<StartKey>)
      requires Valid() && limit >= 1
      requires Query(p, limit, start).value.next.Some?
      ensures var first := Query(p, limit, start).value;
              var second := Query(p, limit, first.next).value;
              forall x, y :: x in first.items && y in second.items ==> EntryLt(EntryOf(y), EntryOf(x))
    {
      var first := Query(p, limit, start).value;
      var k := first.next.value;
      var n := |first.items|;
      QueryNextIsLast(p, limit, start);
      var last := first.items[n - 1];
      assert Position(k) == EntryOf(last);
      QueryBelowStart(p, limit, k);
      QueryLastIsOldest(p, limit, start);
      var second := Query(p, limit, first.next).value;
      forall x, y | x in first.items && y in second.items
        ensures EntryLt(EntryOf(y), EntryOf(x))
      {
        var i :| 0 <= i < n && first.items[i] == x;
        if i < n - 1 {
          EntryLtTransitive(EntryOf(y), EntryOf(last), EntryOf(x));
        }
      }
    }
  }
}
