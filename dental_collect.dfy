/** The collectors of views/news/autotransplant_news.py: the per-entry loop of
    `fetch_google_news_dental`, the one-article PubMed sample of
    `fetch_pubmed_articles`, and `collect_autotransplant_news` with its `_step`
    wrapper that turns a failing collector into an error message. */
module DentalCollect {
  import opened Wrappers
  import opened Text
  import opened DentalStore
  import opened DentalRelevance

  /** One feedparser entry of a Google News RSS feed. `publishedStamp` is
      `utcfromtimestamp(mktime(published_parsed))` formatted as
      "%Y-%m-%dT%H:%M:%SZ", or None when `published_parsed` is missing or the
      conversion raised; `putFault` is an exception the conditional put of this
      entry would raise. */
  datatype FeedEntry = FeedEntry(
    link: Option<string>, title: Option<string>, summary: Option<string>,
    published: Option<string>, updated: Option<string>, publishedStamp: Option<string>,
    sourceTitle: Option<string>, putFault: Option<string>)

  /** `published_at`: the parsed feed date when the entry has a published or
      updated date that converted, otherwise the current time `now`. */
  function PublishedAt(e: FeedEntry, now: string): (r: string)
    ensures r != now ==> (Truthy(e.published) || Truthy(e.updated)) && e.publishedStamp == Some(r)
    ensures !Truthy(e.published) && !Truthy(e.updated) ==> r == now
  {
    if (Truthy(e.published) || Truthy(e.updated)) && e.publishedStamp.Some? then e.publishedStamp.value
    else now
  }

  /** The item one feed entry would be stored as, or None when the loop skips it
      (no link, or not relevant after stripping the title). */
  function HarvestArticle(e: FeedEntry, lang: string, now: string): Option<Article> {
    if !Truthy(e.link) then None
    else
      var title := Strip(e.title.GetOr(""));
      if !IsRelevant(Some(title), e.summary, lang) then None
      else Some(Article(e.link.value, Some(title), Some("google_news"), Some(ClassifyKind(title)),
                        Some(lang), Some(PublishedAt(e, now)), e.summary, None, e.sourceTitle))
  }

  /** An entry is stored only when it has a link and its stripped title passes the
      relevance test; it is then a Google News item of the classified kind, in the
      partition of that kind and the feed's language. */
  lemma HarvestArticleFacts(hash: string -> string, e: FeedEntry, lang: string, now: string)
    ensures HarvestArticle(e, lang, now).Some? <==>
              Truthy(e.link) && IsRelevant(Some(Strip(e.title.GetOr(""))), e.summary, lang)
    ensures HarvestArticle(e, lang, now).Some? ==>
              var a := HarvestArticle(e, lang, now).value;
              var title := Strip(e.title.GetOr(""));
              && a.url == e.link.value && a.title == Some(title) && title != ""
              && a.source == Some("google_news") && a.imageUrl == None
              && RecordOf(hash, a).gsi1pk == PartitionKey(ClassifyKind(title), lang)
              && (now != "" && PublishedAt(e, now) != "" ==> RecordOf(hash, a).gsi1sk == PublishedAt(e, now))
  {
  }

  /** The decision of the loop for each entry, in feed order. */
  function Decisions(entries: seq<FeedEntry>, lang: string, now: string): (r: seq<Option<Article>>)
    ensures |r| == |entries|
  {
    if entries == [] then []
    else Decisions(entries[..|entries| - 1], lang, now) + [HarvestArticle(entries[|entries| - 1], lang, now)]
  }

  lemma {:induction false} DecisionsAt(entries: seq<FeedEntry>, lang: string, now: string, i: nat)
    requires i < |entries|
    ensures Decisions(entries, lang, now)[i] == HarvestArticle(entries[i], lang, now)
  {
    if i < |entries| - 1 {
      var front := entries[..|entries| - 1];
      DecisionsAt(front, lang, now, i);
      assert front[i] == entries[i];
    }
  }

  /** The present values of a sequence of options, in order. */
  function Somes(os: seq<Option<Article>>): (r: seq<Article>)
    ensures |r| <= |os|
  {
    if os == [] then []
    else
      Somes(os[..|os| - 1]) +
      (match os[|os| - 1] case None => [] case Some(a) => [a])
  }

  lemma {:induction false} SomesIff(os: seq<Option<Article>>)
    ensures forall a :: a in Somes(os) <==> exists i :: 0 <= i < |os| && os[i] == Some(a)
  {
    if os != [] {
      var front := os[..|os| - 1];
      SomesIff(front);
      forall a
        ensures a in Somes(os) <==> exists i :: 0 <= i < |os| && os[i] == Some(a)
      {
        if a in Somes(front) {
          var i :| 0 <= i < |front| && front[i] == Some(a);
          assert os[i] == front[i];
        }
        if i :| 0 <= i < |os| && os[i] == Some(a) {
          if i < |front| {
            assert front[i] == os[i];
          }
        }
      }
    }
  }

  /** The items the loop hands to `put_unique_dental`, in feed order. */
  function Accepted(entries: seq<FeedEntry>, lang: string, now: string): seq<Article> {
    Somes(Decisions(entries, lang, now))
  }

  /** Only entries `HarvestArticle` accepts reach the table, and all of them do. */
  lemma AcceptedIff(entries: seq<FeedEntry>, lang: string, now: string, a: Article)
    ensures a in Accepted(entries, lang, now) <==>
              exists i :: 0 <= i < |entries| && HarvestArticle(entries[i], lang, now) == Some(a)
  {
    var ds := Decisions(entries, lang, now);
    SomesIff(ds);
    if a in Accepted(entries, lang, now) {
      var i :| 0 <= i < |ds| && ds[i] == Some(a);
      DecisionsAt(entries, lang, now, i);
    }
    if i :| 0 <= i < |entries| && HarvestArticle(entries[i], lang, now) == Some(a) {
      DecisionsAt(entries, lang, now, i);
    }
  }

  /** The stored items after one `put_unique_dental` that does not raise. */
  function PutNew(hash: string -> string, rows: map<string, Record>, a: Article): map<string, Record> {
    var pk := PrimaryKey(hash, a.url);
    if pk in rows then rows else rows[pk := RecordOf(hash, a)]
  }

  /** The stored items after putting each item in turn. */
  function PutAll(hash: string -> string, rows: map<string, Record>, arts: seq<Article>): map<string, Record> {
    if arts == [] then rows
    else PutNew(hash, PutAll(hash, rows, arts[..|arts| - 1]), arts[|arts| - 1])
  }

  lemma PutAllSnoc(hash: string -> string, rows: map<string, Record>, arts: seq<Article>, a: Article)
    ensures PutAll(hash, rows, arts + [a]) == PutNew(hash, PutAll(hash, rows, arts), a)
  {
    assert (arts + [a])[..|arts|] == arts;
  }

  /** What was stored before is still stored, unchanged. */
  ghost predicate Kept(rows0: map<string, Record>, rows: map<string, Record>) {
    forall k :: k in rows0 ==> k in rows && rows[k] == rows0[k]
  }

  /** Puts never overwrite or delete: every earlier item survives unchanged. */
  lemma {:induction false} PutAllKeeps(hash: string -> string, rows: map<string, Record>, arts: seq<Article>)
    ensures Kept(rows, PutAll(hash, rows, arts))
  {
    if arts != [] {
      PutAllKeeps(hash, rows, arts[..|arts| - 1]);
    }
  }

  /** Every item put is stored afterwards under its URL key. */
  lemma {:induction false} PutAllStores(hash: string -> string, rows: map<string, Record>, arts: seq<Article>)
    ensures forall a :: a in arts ==> PrimaryKey(hash, a.url) in PutAll(hash, rows, arts)
  {
    if arts != [] {
      var front := arts[..|arts| - 1];
      PutAllStores(hash, rows, front);
      PutAllKeeps(hash, PutAll(hash, rows, front), [arts[|arts| - 1]]);
      assert arts == front + [arts[|arts| - 1]];
    }
  }

  /** Every key that is new holds the record of one of the items put. */
  lemma {:induction false} PutAllAdds(hash: string -> string, rows: map<string, Record>, arts: seq<Article>)
    ensures forall k :: k in PutAll(hash, rows, arts) && k !in rows ==>
              exists a :: a in arts && PutAll(hash, rows, arts)[k] == RecordOf(hash, a)
  {
    if arts != [] {
      var front := arts[..|arts| - 1];
      var last := arts[|arts| - 1];
      PutAllAdds(hash, rows, front);
      var m := PutAll(hash, rows, front);
      forall k | k in PutAll(hash, rows, arts) && k !in rows
        ensures exists a :: a in arts && PutAll(hash, rows, arts)[k] == RecordOf(hash, a)
      {
        if k in m {
          var a :| a in front && m[k] == RecordOf(hash, a);
          assert a in arts;
        } else {
          assert PutAll(hash, rows, arts)[k] == RecordOf(hash, last);
        }
      }
    }
  }

  /** Putting the same items again stores nothing new: the put is at most once. */
  lemma {:induction false} PutAllAgain(hash: string -> string, rows: map<string, Record>, arts: seq<Article>)
    ensures PutAll(hash, PutAll(hash, rows, arts), arts) == PutAll(hash, rows, arts)
  {
    var done := PutAll(hash, rows, arts);
    PutAllStores(hash, rows, arts);
    PutAllStable(hash, done, arts);
  }

  lemma {:induction false} PutAllStable(hash: string -> string, rows: map<string, Record>, arts: seq<Article>)
    requires forall a :: a in arts ==> PrimaryKey(hash, a.url) in rows
    ensures PutAll(hash, rows, arts) == rows
  {
    if arts != [] {
      var front := arts[..|arts| - 1];
      assert forall a :: a in front ==> a in arts;
      PutAllStable(hash, rows, front);
      assert arts[|arts| - 1] in arts;
    }
  }

  /** The conditional put of this entry's item raises. */
  predicate Raises(e: FeedEntry, lang: string, now: string) {
    HarvestArticle(e, lang, now).Some? && e.putFault.Some?
  }

  /** Where the feed loop ends: at the first entry whose put raises, or after
      the last entry when none does. */
  function StopAt(entries: seq<FeedEntry>, lang: string, now: string): (n: nat)
    ensures n <= |entries|
    ensures forall m {:trigger Raises(entries[m], lang, now)} :: 0 <= m < n ==> !Raises(entries[m], lang, now)
    ensures n < |entries| ==> Raises(entries[n], lang, now)
  {
    if entries == [] || Raises(entries[0], lang, now) then 0
    else
      var n := StopAt(entries[1..], lang, now);
      assert forall m :: 1 <= m <= n && m < |entries| ==> entries[m] == entries[1..][m - 1];
      1 + n
  }

  /** The loop that has passed `i` entries without a raise and then meets one,
      or meets the end, stops where `StopAt` says. */
  lemma StopAtIs(entries: seq<FeedEntry>, lang: string, now: string, i: nat)
    requires i <= |entries|
    requires forall m {:trigger Raises(entries[m], lang, now)} :: 0 <= m < i ==> !Raises(entries[m], lang, now)
    requires i < |entries| ==> Raises(entries[i], lang, now)
    ensures StopAt(entries, lang, now) == i
  {
  }

  /** The per-entry loop of `fetch_google_news_dental` over the entries of one
      feed; `saved` counts the puts that returned True. A put that raises ends
      the loop with that error, leaving what the entries before it stored. */
  method FetchGoogleNews(t: DentalTable, entries: seq<FeedEntry>, lang: string, now: string)
    returns (r: Result<nat, string>)
    requires t.Valid()
    modifies t
    ensures t.Valid()
    ensures r.Ok? ==> t.rows == PutAll(t.hash, old(t.rows), Accepted(entries, lang, now))
    ensures r.Ok? ==> r.value == |t.rows| - |old(t.rows)|
    ensures r.Err? ==> |t.rows| >= |old(t.rows)|
    ensures r.Err? <==> StopAt(entries, lang, now) < |entries|
    ensures r.Err? ==>
              && t.rows == PutAll(t.hash, old(t.rows), Accepted(entries[..StopAt(entries, lang, now)], lang, now))
              && r.error == entries[StopAt(entries, lang, now)].putFault.value
  {
    ghost var rows0 := t.rows;
    var saved: nat := 0;
    var i := 0;
    assert entries[..0] == [];
    assert Accepted([], lang, now) == [];
    while i < |entries|
      invariant 0 <= i <= |entries|
      invariant t.Valid()
      invariant t.rows == PutAll(t.hash, rows0, Accepted(entries[..i], lang, now))
      invariant |t.rows| == |rows0| + saved
      invariant forall m {:trigger Raises(entries[m], lang, now)} :: 0 <= m < i ==> !Raises(entries[m], lang, now)
    {
      var put;
      put, saved := HarvestAt(t, entries, lang, now, i, rows0, saved);
      if put.Err? {
        return Err(put.error);
      }
      i := i + 1;
    }
    assert entries[..i] == entries;
    StopAtIs(entries, lang, now, i);
    r := Ok(saved);
  }

  /** The loop body of `fetch_google_news_dental` at entry `i`, stated as the
      loop's invariant one entry on. */
  method HarvestAt(t: DentalTable, entries: seq<FeedEntry>, lang: string, now: string, i: nat,
                   ghost rows0: map<string, Record>, saved: nat) returns (put: Result<bool, string>, saved': nat)
    requires t.Valid() && i < |entries|
    requires t.rows == PutAll(t.hash, rows0, Accepted(entries[..i], lang, now))
    requires |t.rows| == |rows0| + saved
    requires forall m {:trigger Raises(entries[m], lang, now)} :: 0 <= m < i ==> !Raises(entries[m], lang, now)
    modifies t
    ensures t.Valid()
    ensures put.Err? <==> Raises(entries[i], lang, now)
    ensures put.Err? ==>
              && StopAt(entries, lang, now) == i && t.rows == old(t.rows)
              && put.error == entries[i].putFault.value
    ensures put.Ok? ==>
              && t.rows == PutAll(t.hash, rows0, Accepted(entries[..i + 1], lang, now))
              && |t.rows| == |rows0| + saved'
              && forall m {:trigger Raises(entries[m], lang, now)} :: 0 <= m < i + 1 ==> !Raises(entries[m], lang, now)
  {
    PutAllAcceptedSnoc(t.hash, rows0, entries, lang, now, i);
    put := HarvestOne(t, entries[i], lang, now);
    saved' := saved;
    if put.Err? {
      StopAtIs(entries, lang, now, i);
    } else if put.value {
      saved' := saved + 1;
    }
  }

  /** Putting an item if there is one. */
  function PutOpt(hash: string -> string, rows: map<string, Record>, item: Option<Article>): map<string, Record> {
    if item.None? then rows else PutNew(hash, rows, item.value)
  }

  /** One pass of the loop body: skip the entry, or put its item. */
  method HarvestOne(t: DentalTable, e: FeedEntry, lang: string, now: string) returns (r: Result<bool, string>)
    requires t.Valid()
    modifies t
    ensures t.Valid()
    ensures r.Err? <==> HarvestArticle(e, lang, now).Some? && e.putFault.Some?
    ensures r.Err? ==> r.error == e.putFault.value && t.rows == old(t.rows)
    ensures r.Ok? ==> t.rows == PutOpt(t.hash, old(t.rows), HarvestArticle(e, lang, now))
    ensures r.Ok? ==> |t.rows| == |old(t.rows)| + if r.value then 1 else 0
  {
    var item := HarvestArticle(e, lang, now);
    if item.None? {
      return Ok(false);
    }
    r := t.PutUnique(item.value, e.putFault);
    if r.Ok? {
      PutNewCard(t.hash, old(t.rows), item.value);
    }
  }

  /** A put that stores adds exactly one key. */
  lemma PutNewCard(hash: string -> string, rows: map<string, Record>, a: Article)
    ensures |PutNew(hash, rows, a)| == |rows| + if PrimaryKey(hash, a.url) in rows then 0 else 1
  {
    var pk := PrimaryKey(hash, a.url);
    if pk !in rows {
      assert PutNew(hash, rows, a).Keys == rows.Keys + {pk};
    }
  }

  /** The items of one more entry are put after those of the entries before it. */
  lemma PutAllAcceptedSnoc(hash: string -> string, rows: map<string, Record>, entries: seq<FeedEntry>,
                           lang: string, now: string, i: nat)
    requires i < |entries|
    ensures PutAll(hash, rows, Accepted(entries[..i + 1], lang, now))
            == PutOpt(hash, PutAll(hash, rows, Accepted(entries[..i], lang, now)), HarvestArticle(entries[i], lang, now))
  {
    AcceptedSnoc(entries, lang, now, i);
    var item := HarvestArticle(entries[i], lang, now);
    if item.Some? {
      PutAllSnoc(hash, rows, Accepted(entries[..i], lang, now), item.value);
    }
  }

  lemma AcceptedSnoc(entries: seq<FeedEntry>, lang: string, now: string, i: nat)
    requires i < |entries|
    ensures var item := HarvestArticle(entries[i], lang, now);
            && (item.None? ==> Accepted(entries[..i + 1], lang, now) == Accepted(entries[..i], lang, now))
            && (item.Some? ==> Accepted(entries[..i + 1], lang, now) == Accepted(entries[..i], lang, now) + [item.value])
  {
    var ds := Decisions(entries[..i + 1], lang, now);
    assert entries[..i + 1][..i] == entries[..i];
    assert ds == Decisions(entries[..i], lang, now) + [HarvestArticle(entries[i], lang, now)];
    assert ds[..|ds| - 1] == Decisions(entries[..i], lang, now);
  }



  /** The one sample article of `fetch_pubmed_articles`. */
  const PubmedSample := Article(
    "https://pubmed.ncbi.nlm.nih.gov/sample1",
    Some("Digital replica-assisted autotransplantation: A systematic review"),
    Some("pubmed"), Some("research"), Some("en"), Some("2025-01-10T00:00:00Z"),
    Some("A comprehensive review ..."), None, Some("Journal of Oral Surgery"))

  /** `fetch_pubmed_articles`: puts the sample and counts it when it was new. */
  method FetchPubmedArticles(t: DentalTable, fault: Option<string>) returns (r: Result<nat, string>)
    requires t.Valid()
    modifies t
    ensures t.Valid()
    ensures Kept(old(t.rows), t.rows)
    ensures fault.Some? ==> r == Err(fault.value) && t.rows == old(t.rows)
    ensures fault.None? ==> r.Ok? && r.value == |t.rows| - |old(t.rows)| && r.value <= 1
    ensures fault.None? ==> PrimaryKey(t.hash, PubmedSample.url) in t.rows
    ensures r == Ok(1) ==> t.rows == old(t.rows)[PrimaryKey(t.hash, PubmedSample.url) := RecordOf(t.hash, PubmedSample)]
    ensures fault.None? ==> t.rows == PutNew(t.hash, old(t.rows), PubmedSample)
  {
    var put := t.PutUnique(PubmedSample, fault);
    if put.Err? {
      return Err(put.error);
    }
    r := Ok(if put.value then 1 else 0);
  }

  /** The `results` dict of `collect_autotransplant_news`; `errors` is
      `results["_errors"]`. */
  datatype CollectResults = CollectResults(
    googleNewsJa: nat, googleNewsEn: nat, pubmed: nat, youtubeJa: nat, youtubeEn: nat,
    errors: seq<string>)
  {
    /** `sum(v for k, v in results.items() if not k.startswith("_"))`. */
    function Total(): nat {
      googleNewsJa + googleNewsEn + pubmed + youtubeJa + youtubeEn
    }
  }

  /** The error handling of `_step`: a collector's count is passed through; an
      exception counts 0 and becomes the message `f"{label} failed: {e}"`. */
  function StepOutcome(name: string, outcome: Result<nat, string>): (r: (nat, seq<string>))
    ensures outcome.Ok? ==> r == (outcome.value, [])
    ensures outcome.Err? ==> r.0 == 0 && |r.1| == 1 && StartsWith(r.1[0], name + " failed: ")
  {
    match outcome
    case Ok(n) => (n, [])
    case Err(e) =>
      var msg := name + " failed: " + e;
      assert msg[..|name + " failed: "|] == name + " failed: ";
      (0, [msg])
  }

  /** The entries each Google News feed of `collect_autotransplant_news` returns. */
  datatype Feeds = Feeds(
    jaAutotransplant: seq<FeedEntry>, jaCase: seq<FeedEntry>, jaReplica: seq<FeedEntry>,
    enAutotransplantation: seq<FeedEntry>, enToothTransplantation: seq<FeedEntry>)

  /** One `_step` call: its label and the collector it runs. */
  datatype CollectStep =
    | GoogleNewsStep(name: string, entries: seq<FeedEntry>, lang: string)
    | PubmedStep(name: string, fault: Option<string>)

  /** The `i`-th `_step` call of `collect_autotransplant_news`, in order; the
      YouTube steps are commented out in the source. */
  function PlanStep(feeds: Feeds, pubmedFault: Option<string>, i: nat): (r: CollectStep)
    requires i < 6
    ensures r.PubmedStep? <==> i == 5
    ensures r.GoogleNewsStep? ==> r.lang == (if i < 3 then "ja" else "en")
  {
    if i == 0 then GoogleNewsStep("GN ja 自家歯牙移植", feeds.jaAutotransplant, "ja")
    else if i == 1 then GoogleNewsStep("GN ja 歯牙移植 症例", feeds.jaCase, "ja")
    else if i == 2 then GoogleNewsStep("GN ja ドナーレプリカ", feeds.jaReplica, "ja")
    else if i == 3 then GoogleNewsStep("GN en autotransplantation", feeds.enAutotransplantation, "en")
    else if i == 4 then GoogleNewsStep("GN en tooth transplantation", feeds.enToothTransplantation, "en")
    else PubmedStep("PubMed autotransplantation", pubmedFault)
  }

  /** The stored items after one step, failing or not: a feed keeps the puts
      made before the one that raised; the PubMed sample is put unless its put
      raises. */
  function StepRows(hash: string -> string, rows: map<string, Record>, st: CollectStep, now: string): map<string, Record> {
    match st
    case GoogleNewsStep(_, entries, lang) => PutAll(hash, rows, Accepted(entries[..StopAt(entries, lang, now)], lang, now))
    case PubmedStep(_, fault) => if fault.Some? then rows else PutNew(hash, rows, PubmedSample)
  }

  /** What a step's collector returns: the exception of the put that raised,
      or the number of items it added. */
  function CollectorResult(hash: string -> string, rows: map<string, Record>, st: CollectStep, now: string)
    : Result<nat, string>
  {
    match st
    case GoogleNewsStep(_, entries, lang) =>
      var n := StopAt(entries, lang, now);
      if n < |entries| then Err(entries[n].putFault.value)
      else Ok(|StepRows(hash, rows, st, now).Keys - rows.Keys|)
    case PubmedStep(_, fault) =>
      if fault.Some? then Err(fault.value)
      else Ok(|StepRows(hash, rows, st, now).Keys - rows.Keys|)
  }

  /** Growing a table without changing what it held adds exactly the new keys. */
  lemma KeptGrowth(rows0: map<string, Record>, rows: map<string, Record>)
    requires Kept(rows0, rows)
    ensures |rows| == |rows0| + |rows.Keys - rows0.Keys|
  {
    assert rows.Keys == rows0.Keys + (rows.Keys - rows0.Keys);
    assert rows0.Keys * (rows.Keys - rows0.Keys) == {};
  }

  /** A step never overwrites or deletes. */
  lemma StepRowsKept(hash: string -> string, rows: map<string, Record>, st: CollectStep, now: string)
    ensures Kept(rows, StepRows(hash, rows, st, now))
  {
    if st.GoogleNewsStep? {
      PutAllKeeps(hash, rows, Accepted(st.entries[..StopAt(st.entries, st.lang, now)], st.lang, now));
    }
  }

  /** The feed loop's outcome, read as a step. */
  lemma GoogleNewsStepIs(hash: string -> string, rows: map<string, Record>, st: CollectStep, now: string,
                         rows1: map<string, Record>, r: Result<nat, string>)
    requires st.GoogleNewsStep?
    requires r.Ok? ==> rows1 == PutAll(hash, rows, Accepted(st.entries, st.lang, now)) && r.value == |rows1| - |rows|
    requires r.Err? <==> StopAt(st.entries, st.lang, now) < |st.entries|
    requires r.Err? ==>
               && rows1 == PutAll(hash, rows, Accepted(st.entries[..StopAt(st.entries, st.lang, now)], st.lang, now))
               && r.error == st.entries[StopAt(st.entries, st.lang, now)].putFault.value
    ensures rows1 == StepRows(hash, rows, st, now) && r == CollectorResult(hash, rows, st, now)
  {
    if r.Ok? {
      assert st.entries[..|st.entries|] == st.entries;
      StepRowsKept(hash, rows, st, now);
      KeptGrowth(rows, rows1);
    }
  }

  /** The PubMed sample's outcome, read as a step. */
  lemma PubmedStepIs(hash: string -> string, rows: map<string, Record>, st: CollectStep, now: string,
                     rows1: map<string, Record>, r: Result<nat, string>)
    requires st.PubmedStep?
    requires st.fault.Some? ==> r == Err(st.fault.value) && rows1 == rows
    requires st.fault.None? ==> r.Ok? && r.value == |rows1| - |rows| && rows1 == PutNew(hash, rows, PubmedSample)
    ensures rows1 == StepRows(hash, rows, st, now) && r == CollectorResult(hash, rows, st, now)
  {
    if st.fault.None? {
      StepRowsKept(hash, rows, st, now);
      KeptGrowth(rows, rows1);
    }
  }

  /** `_step(label, fn, *args)`: runs one collector; the table afterwards is
      what the collector stored before it finished or raised, and the count and
      messages are `_step`'s reading of what the collector returned. */
  method Step(t: DentalTable, st: CollectStep, now: string) returns (cnt: nat, failed: seq<string>)
    requires t.Valid()
    modifies t
    ensures t.Valid() && Kept(old(t.rows), t.rows)
    ensures t.rows == StepRows(t.hash, old(t.rows), st, now)
    ensures (cnt, failed) == StepOutcome(st.name, CollectorResult(t.hash, old(t.rows), st, now))
  {
    var o: Result<nat, string>;
    if st.GoogleNewsStep? {
      o := FetchGoogleNews(t, st.entries, st.lang, now);
      GoogleNewsStepIs(t.hash, old(t.rows), st, now, t.rows, o);
    } else {
      o := FetchPubmedArticles(t, st.fault);
      PubmedStepIs(t.hash, old(t.rows), st, now, t.rows, o);
    }
    StepRowsKept(t.hash, old(t.rows), st, now);
    cnt, failed := StepOutcome(st.name, o).0, StepOutcome(st.name, o).1;
  }

  /** A step's count never exceeds what it added, and equals it when the
      collector did not raise; it leaves at most one message, with the label. */
  lemma StepOutcomeBounds(hash: string -> string, rows: map<string, Record>, st: CollectStep, now: string)
    ensures var out := StepOutcome(st.name, CollectorResult(hash, rows, st, now));
            var rows1 := StepRows(hash, rows, st, now);
      && |out.1| <= 1 && (out.1 != [] ==> StartsWith(out.1[0], st.name + " failed: "))
      && out.0 <= |rows1| - |rows|
      && (out.1 == [] ==> out.0 == |rows1| - |rows|)
  {
    StepRowsKept(hash, rows, st, now);
    KeptGrowth(rows, StepRows(hash, rows, st, now));
  }

  /** `results[key] += _step(...)`: a Japanese feed's count goes to
      `google_news_ja`, an English feed's to `google_news_en`, the PubMed
      count to `pubmed`; the other counts stay as they were. */
  function AddCount(results: CollectResults, step: CollectStep, c: nat, failed: seq<string>): (r: CollectResults)
    ensures r.Total() == results.Total() + c
    ensures r.youtubeJa == results.youtubeJa && r.youtubeEn == results.youtubeEn
    ensures r.errors == results.errors + failed
    ensures step.PubmedStep? ==>
              r.pubmed == results.pubmed + c
              && r.googleNewsJa == results.googleNewsJa && r.googleNewsEn == results.googleNewsEn
    ensures step.GoogleNewsStep? && step.lang == "ja" ==>
              r.googleNewsJa == results.googleNewsJa + c
              && r.googleNewsEn == results.googleNewsEn && r.pubmed == results.pubmed
    ensures step.GoogleNewsStep? && step.lang != "ja" ==>
              r.googleNewsEn == results.googleNewsEn + c
              && r.googleNewsJa == results.googleNewsJa && r.pubmed == results.pubmed
  {
    match step
    case PubmedStep(_, _) => results.(pubmed := results.pubmed + c, errors := results.errors + failed)
    case GoogleNewsStep(_, _, lang) =>
      if lang == "ja" then results.(googleNewsJa := results.googleNewsJa + c, errors := results.errors + failed)
      else results.(googleNewsEn := results.googleNewsEn + c, errors := results.errors + failed)
  }

  /** The stored items and the `results` dict after the plan's first `n` steps. */
  function Collected(hash: string -> string, rows: map<string, Record>, feeds: Feeds, pubmedFault: Option<string>,
                     now: string, n: nat): (map<string, Record>, CollectResults)
    requires n <= 6
  {
    if n == 0 then (rows, CollectResults(0, 0, 0, 0, 0, []))
    else
      var prev := Collected(hash, rows, feeds, pubmedFault, now, n - 1);
      var st := PlanStep(feeds, pubmedFault, n - 1);
      var out := StepOutcome(st.name, CollectorResult(hash, prev.0, st, now));
      (StepRows(hash, prev.0, st, now), AddCount(prev.1, st, out.0, out.1))
  }

  /** The count of the plan's `i`-th step, run on what the steps before it stored. */
  function CountAt(hash: string -> string, rows: map<string, Record>, feeds: Feeds, pubmedFault: Option<string>,
                   now: string, i: nat): nat
    requires i < 6
  {
    var st := PlanStep(feeds, pubmedFault, i);
    StepOutcome(st.name, CollectorResult(hash, Collected(hash, rows, feeds, pubmedFault, now, i).0, st, now)).0
  }

  /** The messages of the plan's `i`-th step. */
  function MessagesAt(hash: string -> string, rows: map<string, Record>, feeds: Feeds, pubmedFault: Option<string>,
                      now: string, i: nat): seq<string>
    requires i < 6
  {
    var st := PlanStep(feeds, pubmedFault, i);
    StepOutcome(st.name, CollectorResult(hash, Collected(hash, rows, feeds, pubmedFault, now, i).0, st, now)).1
  }

  /** The counts of `results` a step can add to. */
  datatype Bucket = GoogleNewsJa | GoogleNewsEn | Pubmed

  /** The key of `results` the plan's `i`-th step adds to. */
  function StepBucket(i: nat): (b: Bucket)
    requires i < 6
    ensures b == GoogleNewsJa <==> i < 3
    ensures b == Pubmed <==> i == 5
  {
    if i < 3 then GoogleNewsJa else if i < 5 then GoogleNewsEn else Pubmed
  }

  /** The sum of the counts of those of the plan's first `n` steps that add to `b`. */
  function BucketCount(hash: string -> string, rows: map<string, Record>, feeds: Feeds, pubmedFault: Option<string>,
                       now: string, b: Bucket, n: nat): nat
    requires n <= 6
  {
    if n == 0 then 0
    else
      BucketCount(hash, rows, feeds, pubmedFault, now, b, n - 1)
      + (if StepBucket(n - 1) == b then CountAt(hash, rows, feeds, pubmedFault, now, n - 1) else 0)
  }

  /** The messages of the plan's first `n` steps, in step order. */
  function MessagesUpTo(hash: string -> string, rows: map<string, Record>, feeds: Feeds, pubmedFault: Option<string>,
                        now: string, n: nat): seq<string>
    requires n <= 6
  {
    if n == 0 then []
    else MessagesUpTo(hash, rows, feeds, pubmedFault, now, n - 1) + MessagesAt(hash, rows, feeds, pubmedFault, now, n - 1)
  }

  /** Step `n - 1` adds its count to its own bucket and its messages to the
      messages of the steps before it. */
  lemma CollectedNext(hash: string -> string, rows: map<string, Record>, feeds: Feeds, pubmedFault: Option<string>,
                      now: string, n: nat)
    requires 0 < n <= 6
    ensures var prev := Collected(hash, rows, feeds, pubmedFault, now, n - 1).1;
            var res := Collected(hash, rows, feeds, pubmedFault, now, n).1;
            var c := CountAt(hash, rows, feeds, pubmedFault, now, n - 1);
            var b := StepBucket(n - 1);
      && res.googleNewsJa == prev.googleNewsJa + (if b == GoogleNewsJa then c else 0)
      && res.googleNewsEn == prev.googleNewsEn + (if b == GoogleNewsEn then c else 0)
      && res.pubmed == prev.pubmed + (if b == Pubmed then c else 0)
      && res.youtubeJa == prev.youtubeJa && res.youtubeEn == prev.youtubeEn
      && res.errors == prev.errors + MessagesAt(hash, rows, feeds, pubmedFault, now, n - 1)
  {
    var st := PlanStep(feeds, pubmedFault, n - 1);
    assert Collected(hash, rows, feeds, pubmedFault, now, n).1
           == AddCount(Collected(hash, rows, feeds, pubmedFault, now, n - 1).1, st,
                       CountAt(hash, rows, feeds, pubmedFault, now, n - 1),
                       MessagesAt(hash, rows, feeds, pubmedFault, now, n - 1));
  }

  /** The count of `results` under the key of bucket `b`. */
  function BucketOf(results: CollectResults, b: Bucket): nat {
    match b
    case GoogleNewsJa => results.googleNewsJa
    case GoogleNewsEn => results.googleNewsEn
    case Pubmed => results.pubmed
  }

  /** Step `n - 1` adds its count under bucket `b` exactly when `b` is its bucket. */
  lemma CollectedNextBucket(hash: string -> string, rows: map<string, Record>, feeds: Feeds, pubmedFault: Option<string>,
                            now: string, b: Bucket, n: nat)
    requires 0 < n <= 6
    ensures BucketOf(Collected(hash, rows, feeds, pubmedFault, now, n).1, b)
            == BucketOf(Collected(hash, rows, feeds, pubmedFault, now, n - 1).1, b)
               + (if StepBucket(n - 1) == b then CountAt(hash, rows, feeds, pubmedFault, now, n - 1) else 0)
  {
    CollectedNext(hash, rows, feeds, pubmedFault, now, n);
  }

  /** After the plan's first `n` steps the count under each key is the sum of
      the counts of that key's steps so far. */
  lemma {:induction false} BucketSums(hash: string -> string, rows: map<string, Record>, feeds: Feeds,
                                      pubmedFault: Option<string>, now: string, b: Bucket, n: nat)
    requires n <= 6
    ensures BucketOf(Collected(hash, rows, feeds, pubmedFault, now, n).1, b)
            == BucketCount(hash, rows, feeds, pubmedFault, now, b, n)
  {
    if n > 0 {
      BucketSums(hash, rows, feeds, pubmedFault, now, b, n - 1);
      CollectedNextBucket(hash, rows, feeds, pubmedFault, now, b, n);
    }
  }

  /** After the plan's first `n` steps `_errors` holds their messages in step order. */
  lemma {:induction false} ErrorsInOrder(hash: string -> string, rows: map<string, Record>, feeds: Feeds,
                                         pubmedFault: Option<string>, now: string, n: nat)
    requires n <= 6
    ensures Collected(hash, rows, feeds, pubmedFault, now, n).1.errors
            == MessagesUpTo(hash, rows, feeds, pubmedFault, now, n)
  {
    if n > 0 {
      ErrorsInOrder(hash, rows, feeds, pubmedFault, now, n - 1);
      CollectedNext(hash, rows, feeds, pubmedFault, now, n);
    }
  }

  /** After the plan's first `n` steps each count of `results` is the sum of
      its own steps' counts so far (steps 0 to 2 are the Japanese feeds, 3 and
      4 the English feeds, 5 the PubMed sample), the YouTube counts are 0 and
      the messages come in step order. With `n == 6` this is the whole
      `results` dict. */
  lemma CollectedBuckets(hash: string -> string, rows: map<string, Record>, feeds: Feeds, pubmedFault: Option<string>,
                         now: string, n: nat)
    requires n <= 6
    ensures var res := Collected(hash, rows, feeds, pubmedFault, now, n).1;
      && res.googleNewsJa == BucketCount(hash, rows, feeds, pubmedFault, now, GoogleNewsJa, n)
      && res.googleNewsEn == BucketCount(hash, rows, feeds, pubmedFault, now, GoogleNewsEn, n)
      && res.pubmed == BucketCount(hash, rows, feeds, pubmedFault, now, Pubmed, n)
      && res.youtubeJa == 0 && res.youtubeEn == 0
      && res.errors == MessagesUpTo(hash, rows, feeds, pubmedFault, now, n)
  {
    BucketSums(hash, rows, feeds, pubmedFault, now, GoogleNewsJa, n);
    BucketSums(hash, rows, feeds, pubmedFault, now, GoogleNewsEn, n);
    BucketSums(hash, rows, feeds, pubmedFault, now, Pubmed, n);
    ErrorsInOrder(hash, rows, feeds, pubmedFault, now, n);
    CollectedTotal(hash, rows, feeds, pubmedFault, now, n);
  }

  /** What the plan's first `n` steps keep: nothing stored before is lost or
      changed, the YouTube counts stay 0, each step leaves at most one message,
      and the counts add up to at most the number of items added, exactly that
      number when no step failed. */
  lemma {:induction false} CollectedTotal(hash: string -> string, rows: map<string, Record>, feeds: Feeds,
                                          pubmedFault: Option<string>, now: string, n: nat)
    requires n <= 6
    ensures var c := Collected(hash, rows, feeds, pubmedFault, now, n);
      && Kept(rows, c.0)
      && c.1.youtubeJa == 0 && c.1.youtubeEn == 0
      && |c.1.errors| <= n
      && c.1.Total() <= |c.0| - |rows|
      && (c.1.errors == [] ==> c.1.Total() == |c.0| - |rows|)
  {
    if n > 0 {
      CollectedTotal(hash, rows, feeds, pubmedFault, now, n - 1);
      var prev := Collected(hash, rows, feeds, pubmedFault, now, n - 1);
      var st := PlanStep(feeds, pubmedFault, n - 1);
      StepOutcomeBounds(hash, prev.0, st, now);
      StepRowsKept(hash, prev.0, st, now);
      KeptTrans(rows, prev.0, StepRows(hash, prev.0, st, now));
    }
  }

  /** `collect_autotransplant_news`: runs the plan's steps in order. The table
      ends as the steps leave it one after the other, `results` is the plan's
      `results` dict (its buckets are summed up by `CollectedBuckets`) and the
      total is the sum of its counts, which never exceeds the number of items
      stored and equals it when no step failed. */
  method CollectAutotransplantNews(t: DentalTable, feeds: Feeds, pubmedFault: Option<string>, now: string)
    returns (total: nat, results: CollectResults)
    requires t.Valid()
    modifies t
    ensures t.Valid() && Kept(old(t.rows), t.rows)
    ensures t.rows == Collected(t.hash, old(t.rows), feeds, pubmedFault, now, 6).0
    ensures results == Collected(t.hash, old(t.rows), feeds, pubmedFault, now, 6).1
    ensures total == results.Total()
    ensures results.youtubeJa == 0 && results.youtubeEn == 0
    ensures |results.errors| <= 6
    ensures total <= |t.rows| - |old(t.rows)|
    ensures results.errors == [] ==> total == |t.rows| - |old(t.rows)|
  {
    ghost var rows0 := t.rows;
    results := CollectResults(0, 0, 0, 0, 0, []);
    for i := 0 to 6
      invariant t.Valid()
      invariant (t.rows, results) == Collected(t.hash, rows0, feeds, pubmedFault, now, i)
    {
      results := StepAt(t, feeds, pubmedFault, now, i, rows0, results);
    }
    CollectedTotal(t.hash, rows0, feeds, pubmedFault, now, 6);
    total := results.Total();
  }

  /** The loop body of `collect_autotransplant_news` at step `i`: one `_step`
      call and its `results[key] += ...`. */
  method StepAt(t: DentalTable, feeds: Feeds, pubmedFault: Option<string>, now: string, i: nat,
                ghost rows0: map<string, Record>, results: CollectResults)
    returns (results': CollectResults)
    requires i < 6
    requires t.Valid()
    requires (t.rows, results) == Collected(t.hash, rows0, feeds, pubmedFault, now, i)
    modifies t
    ensures t.Valid()
    ensures (t.rows, results') == Collected(t.hash, rows0, feeds, pubmedFault, now, i + 1)
  {
    var st := PlanStep(feeds, pubmedFault, i);
    var c, f := Step(t, st, now);
    results' := AddCount(results, st, c, f);
  }

  lemma KeptTrans(a: map<string, Record>, b: map<string, Record>, c: map<string, Record>)
    requires Kept(a, b) && Kept(b, c)
    ensures Kept(a, c)
  {
  }
}
