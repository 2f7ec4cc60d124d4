/** views/news/migrate_qdrant.py: the scan of the dental-news table for
    PubMed items, their conversion into the item shape `save_paper` reads,
    and the confirmed hand-over to the vector store. */
module MigrateQdrant {
  import opened Wrappers
  import opened Text
  import opened PubmedStore

  /** A scanned record: attribute name to string value. */
  type DynamoItem = map<string, string>

  /** `item.get(name, '')`. */
  function Get(item: DynamoItem, name: string): string {
    if name in item then item[name] else ""
  }

  /** A `LastEvaluatedKey`. */
  type StartKey = map<string, string>

  /** One scan response: the raw items of the page and its `LastEvaluatedKey`. */
  datatype ScanPage = ScanPage(items: seq<DynamoItem>, last: Option<StartKey>)

  /** `if last_evaluated_key:` — a missing key and an empty one both end the scan. */
  predicate Truthy(last: Option<StartKey>) {
    last.Some? && last.value != map[]
  }

  /** The `FilterExpression` `#src = :pubmed`. */
  predicate IsPubmed(item: DynamoItem) {
    Get(item, "source") == "pubmed"
  }

  /** The items of one page that pass the filter, in page order. */
  function Filtered(items: seq<DynamoItem>): (r: seq<DynamoItem>)
    ensures |r| <= |items|
    ensures forall x :: x in r <==> x in items && IsPubmed(x)
  {
    if items == [] then [] else (if IsPubmed(items[0]) then [items[0]] else []) + Filtered(items[1..])
  }

  /** The scan started at `start` ends within `n` responses. */
  ghost predicate Ends(scan: Option<StartKey> -> ScanPage, start: Option<StartKey>, n: nat)
    decreases n
  {
    n > 0 && (Truthy(scan(start).last) ==> Ends(scan, scan(start).last, n - 1))
  }

  /** The filtered items of every page from `start` on, page after page. */
  function ScanFrom(scan: Option<StartKey> -> ScanPage, start: Option<StartKey>, ghost n: nat): seq<DynamoItem>
    requires Ends(scan, start, n)
    decreases n
  {
    var page := scan(start);
    Filtered(page.items) + if Truthy(page.last) then ScanFrom(scan, page.last, n - 1) else []
  }

  /** Every item of a scan passed the filter, and every pubmed item of the
      first page is among them. */
  lemma {:induction false} ScanFromPubmed(scan: Option<StartKey> -> ScanPage, start: Option<StartKey>, n: nat)
    requires Ends(scan, start, n)
    ensures forall x :: x in ScanFrom(scan, start, n) ==> IsPubmed(x)
    ensures forall x :: x in scan(start).items && IsPubmed(x) ==> x in ScanFrom(scan, start, n)
    decreases n
  {
    var page := scan(start);
    if Truthy(page.last) {
      ScanFromPubmed(scan, page.last, n - 1);
    }
  }

  /** The items of the pages after the first, when there are any. */
  ghost function Later(scan: Option<StartKey> -> ScanPage, start: Option<StartKey>, n: nat): seq<DynamoItem>
    requires Ends(scan, start, n)
  {
    if Truthy(scan(start).last) then ScanFrom(scan, scan(start).last, n - 1) else []
  }

  lemma ScanUnfold(scan: Option<StartKey> -> ScanPage, start: Option<StartKey>, n: nat)
    requires Ends(scan, start, n)
    ensures ScanFrom(scan, start, n) == Filtered(scan(start).items) + Later(scan, start, n)
  {
  }

  lemma AppendAssoc(a: seq<DynamoItem>, b: seq<DynamoItem>, c: seq<DynamoItem>)
    ensures a + (b + c) == (a + b) + c
  {
  }

  /** `get_pubmed_items_from_dynamodb`: scans page after page, passing the
      previous `LastEvaluatedKey` as `ExclusiveStartKey`, until a response
      has none. `n` bounds the number of responses the table gives. */
  method GetPubmedItems(scan: Option<StartKey> -> ScanPage, ghost n: nat) returns (items: seq<DynamoItem>)
    requires Ends(scan, None, n)
    ensures items == ScanFrom(scan, None, n)
  {
    items := [];
    var lastEvaluatedKey: Option<StartKey> := None;
    ghost var left := n;
    while true
      invariant lastEvaluatedKey == None || Truthy(lastEvaluatedKey)
      invariant Ends(scan, lastEvaluatedKey, left)
      invariant items + ScanFrom(scan, lastEvaluatedKey, left) == ScanFrom(scan, None, n)
      decreases left
    {
      var start := if Truthy(lastEvaluatedKey) then lastEvaluatedKey else None;
      assert start == lastEvaluatedKey;
      var response := scan(start);
      ghost var later := Later(scan, start, left);
      ScanUnfold(scan, start, left);
      AppendAssoc(items, Filtered(response.items), later);
      items := items + Filtered(response.items);
      lastEvaluatedKey := response.last;
      if !Truthy(lastEvaluatedKey) {
        assert later == [];
        assert items + later == items;
        return;
      }
      left := left - 1;
    }
  }

  /** One record in the shape `save_paper` reads, or None when no pmid can be derived. */
  function ConvertItem(item: DynamoItem): (r: Option<PaperItem>)
    ensures r.Some? <==> PmidFrom(Get(item, "pmid"), Get(item, "url")) != ""
    ensures r.Some? ==> r.value.source == "pubmed" && r.value.lang == "en" && r.value.pmid != ""
  {
    var pmid := PmidFrom(Get(item, "pmid"), Get(item, "url"));
    if pmid == "" then None
    else Some(PaperItem("pubmed", pmid, Get(item, "title"), Get(item, "url"), Get(item, "published_at"),
                        Get(item, "summary"), Get(item, "author"), "en"))
  }

  /** The converted records of `items`, in input order. */
  function Converted(items: seq<DynamoItem>): seq<PaperItem>
    decreases |items|
  {
    if items == [] then []
    else Converted(items[..|items| - 1]) + match ConvertItem(items[|items| - 1])
                                            case None => []
                                            case Some(x) => [x]
  }

  /** Conversion never adds records. */
  lemma {:induction false} ConvertedShorter(items: seq<DynamoItem>)
    ensures |Converted(items)| <= |items|
    decreases |items|
  {
    if items != [] {
      ConvertedShorter(items[..|items| - 1]);
    }
  }

  /** Conversion keeps relative order: it distributes over concatenation. */
  lemma {:induction false} ConvertedAppend(a: seq<DynamoItem>, b: seq<DynamoItem>)
    ensures Converted(a + b) == Converted(a) + Converted(b)
    decreases |b|
  {
    if b != [] {
      var b' := b[..|b| - 1];
      assert (a + b)[..|a + b| - 1] == a + b';
      ConvertedAppend(a, b');
    } else {
      assert a + b == a;
    }
  }

  /** A converted record is exactly the conversion of some input record
      that has a pmid. */
  lemma {:induction false} ConvertedIff(items: seq<DynamoItem>, x: PaperItem)
    ensures x in Converted(items) <==> exists it :: it in items && ConvertItem(it) == Some(x)
    decreases |items|
  {
    if items != [] {
      var init := items[..|items| - 1];
      var last := items[|items| - 1];
      ConvertedIff(init, x);
      assert items == init + [last];
      if it :| it in items && ConvertItem(it) == Some(x) {
        if it !in init {
          assert it == last;
        }
      }
    }
  }

  /** Every converted record is a PubMed item in English with a pmid. */
  lemma ConvertedArePubmed(items: seq<DynamoItem>)
    ensures forall x :: x in Converted(items) ==> x.source == "pubmed" && x.lang == "en" && x.pmid != ""
  {
    forall x | x in Converted(items)
      ensures x.source == "pubmed" && x.lang == "en" && x.pmid != ""
    {
      ConvertedIff(items, x);
    }
  }

  /** `convert_dynamodb_to_pubmed_format`. */
  method ConvertItems(dynamoItems: seq<DynamoItem>) returns (converted: seq<PaperItem>)
    ensures converted == Converted(dynamoItems)
  {
    converted := [];
    for i := 0 to |dynamoItems|
      invariant converted == Converted(dynamoItems[..i])
    {
      assert dynamoItems[..i + 1][..i] == dynamoItems[..i];
      var item := dynamoItems[i];
      var c := ConvertItem(item);
      if c.Some? {
        converted := converted + [c.value];
      }
    }
    assert dynamoItems[..|dynamoItems|] == dynamoItems;
  }

  /** What `main` ends with: nothing found, cancelled, or the totals of the save. */
  datatype Outcome = NothingFound | Cancelled | Migrated(result: Result<Stats, string>)

  /** The operator's answer counts as yes only when it is `y` once stripped and lowercased. */
  predicate Confirmed(answer: string) {
    Lower(Strip(answer)) == "y"
  }

  /** `main`: scan, convert, ask, then save every converted item. `answer` is what the operator typed. */
  method Migrate(scan: Option<StartKey> -> ScanPage, ghost n: nat, answer: string, store: VectorStore, svc: Services)
    returns (outcome: Outcome)
    requires Ends(scan, None, n)
    modifies store
    ensures ScanFrom(scan, None, n) == [] ==> outcome == NothingFound
    ensures ScanFrom(scan, None, n) != [] && !Confirmed(answer) ==> outcome == Cancelled
    ensures outcome.NothingFound? || outcome.Cancelled? ==> store.points == old(store.points)
    ensures outcome.Migrated? ==> ScanFrom(scan, None, n) != [] && Confirmed(answer)
    ensures outcome.Migrated? && outcome.result.Ok? ==>
              |store.points| == |old(store.points)| + outcome.result.value.saved
    ensures outcome.Migrated? ==>
              var run := SaveAll(old(store.points), PlanOf(svc), PubmedOnly(Converted(ScanFrom(scan, None, n))), 0, 0);
              store.points == run.points && outcome.result == run.result
  {
    var dynamoItems := GetPubmedItems(scan, n);
    if dynamoItems == [] {
      return NothingFound;
    }
    var pubmedItems := ConvertItems(dynamoItems);
    if !Confirmed(answer) {
      return Cancelled;
    }
    var result := SavePubmedItems(store, pubmedItems, svc);
    outcome := Migrated(result);
  }
}
