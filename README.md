# hoero_world data-handling core in Dafny

This project models the data-handling logic of the hoero_world web site (a
Flask application on DynamoDB, S3 and a vector store) once its AWS, HTTP,
Flask and language-model calls are taken out. It covers these pieces:

- **Dental-news store** (`views/news/autotransplant_news.py`):
  - a table keyed by a hash of the URL, with an at-most-once conditional insert;
  - a secondary index by kind and language, newest first, with opaque continuation tokens;
  - a keyword relevance filter and a kind classifier;
  - the per-entry loop of the news harvest;
  - the cleanup pass that deletes irrelevant items;
  - the JSON "latest" endpoint.
- **PubMed full-text sectioning and vector indexing** (`views/news/pubmed_vector_store.py`, `views/news/migrate_qdrant.py`):
  - the heading classifier and whitespace cleaning;
  - the merge of a PMC article tree into six named sections;
  - deterministic point ids;
  - the per-section, per-language save loop with its counters;
  - the paging loop that copies items from DynamoDB.
- **Smaller utilities and state operations of the site**:
  - filename sanitising and unique S3 keys;
  - the S3 browser's pages;
  - the STL board's posts, comments and likes;
  - YouTube ids;
  - the badminton schedule's participant toggle;
  - the dental chart's binomial count;
  - logins, registration and the user list;
  - inquiries, blog categories and blog posts;
  - the authenticated-user object;
  - the one-off migration and repair scripts (RDS→DynamoDB id remapping, a title-keyed repair, user re-keying).

Each Dafny module models part of one source file; several modules may share a file (the news view, for instance, is split into paging, relevance, collection, sweep and cleanup modules). A few modules are shared by all of them:

| module | provides |
|---|---|
| `Wrappers` | Option and Result |
| `Text` | ASCII case, Python `strip`, substring search, decimal integers |
| `PySlice` | Python slices with negative bounds, floor division |
| `Sorting` | a sort by a total preorder, proved sorted and a permutation |
| `Tables` | a DynamoDB table as a sequence of items with distinct keys |
| `Lex`, `Paths` | ordering and path helpers |

Code that changes state in place is modelled as a class whose methods have `modifies` clauses:
- the DynamoDB tables the code writes;
- the chart's array of 32 teeth;
- the migration scripts' id mappings.

Queries and record building are functions. Every external service is a parameter of the member that uses it:
- the clock, `uuid4` and hashing;
- S3 `head_object`;
- embeddings and translation;
- the password hash.

Each service comes either as a function-typed value or as the value it returned.

## Model

| member | source | states |
|---|---|---|
| Badminton.FirstIndex | views/uguis_badminton/routes.py:383-384 | the index found is the first occurrence of the user in the list |
| Badminton.RemoveFirst | views/uguis_badminton/routes.py:384 | `list.remove(x)` drops exactly one copy of `x`: length one less, multiset minus `{x}` |
| Badminton.Toggled | views/uguis_badminton/routes.py:382-390 | a listed user is removed once (length and multiset); an unlisted user is appended at the end |
| Badminton.JoinThenCancel | views/uguis_badminton/routes.py:382-390 | joining and then cancelling restores the original participant list |
| Badminton.ScheduleTable.JoinSchedule | views/uguis_badminton/routes.py:366-424 | no date gives BadRequest, an unknown (id, date) gives NotFound, and in both cases nothing changes; otherwise the toggled list and its length are stored and returned with `is_joining`, unless `update_item` raises, which gives the 500 answer with the table unchanged |
| Badminton.Pad2 | views/uguis_badminton/routes.py:360 | `%m`/`%d` are two zero-padded decimal digits |
| Badminton.FormatDate | views/uguis_badminton/routes.py:356-362 | a value `fromisoformat` rejects is returned unchanged |
| Badminton.Pad2OfDigits | views/uguis_badminton/routes.py:359-360 | two digits read and printed back with `%m`/`%d` are the same two characters |
| Badminton.FormatDateIsMonthDay | views/uguis_badminton/routes.py:356-360 | a parseable ISO date becomes its own month and day as the five characters `MM/DD` |
| Badminton.LoginLookup | views/uguis_badminton/routes.py:129-138 | the `email-index` query finds a record iff some record's email equals the lowercased input, and what it finds is such a record |
| Badminton.LoginIgnoresCase | views/uguis_badminton/routes.py:133 | inputs that differ only in ASCII case find the same record, and a found record's stored email is already lower case |
| Badminton.UguisLogin | views/uguis_badminton/routes.py:140-185 | the login succeeds iff a record is found, it has every field the `User` constructor reads, and the password check passes; the user logged in has the lowercased email |
| DentalChart.BinomAbove | static/js/mtn.js:26 | C(n, k) is 0 for k > n |
| DentalChart.BinomAll | static/js/mtn.js:27 | C(n, n) is 1 |
| DentalChart.Absorb | static/js/mtn.js:30-33 | k·C(n,k) = n·C(n−1,k−1), the identity that the multiplicative loop relies on |
| DentalChart.Complement | static/js/mtn.js:30-33 | (n−k)·C(n,k) = n·C(n−1,k) |
| DentalChart.LoopStep | static/js/mtn.js:31-32 | one loop pass turns C(n, i−1) into C(n, i): C(n,i−1)·(n−i+1) = C(n,i)·i |
| DentalChart.Symmetric | static/js/mtn.js:28 | C(n, k) = C(n, n−k), so replacing k by n−k when k > n/2 gives the same value |
| DentalChart.CombinationsEdges | static/js/mtn.js:26-27 | 0 for k < 0 or k > n; 1 for k = 0 or k = n |
| DentalChart.CalculateCombination | static/js/mtn.js:25-35 | the loop returns exactly C(n, k) (after the swap to n−k and the early exits) |
| DentalChart.Slot | static/js/mtn.js:4-40 | each (jaw, side, index) checkbox has a position in 0..31 of the flattened state |
| DentalChart.SlotInjective | static/js/mtn.js:4-40 | distinct checkboxes have distinct positions |
| DentalChart.CountMarkedBound | static/js/mtn.js:40 | the count of marked teeth is at most the number of entries, and 0 when none is marked |
| DentalChart.CountMarkedFlip | static/js/mtn.js:16-40 | flipping one entry moves the count by exactly one, down if it was marked, up otherwise |
| DentalChart.Chart.constructor | static/js/mtn.js:4-46 | a fresh chart has every tooth clear, count 0 and 1 combination |
| DentalChart.Chart.Recount | static/js/mtn.js:38-46 | the effect sets the count to the number of marked teeth and the combinations to C(28, count); the teeth are unchanged |
| DentalChart.Chart.ToggleTooth | static/js/mtn.js:16-46 | exactly the chosen entry is flipped, in place; then the count and combinations are recomputed |
| DentalChart.Chart.ResetAll | static/js/mtn.js:38-51 | the chart is all clear again, count 0 and combinations 1 |
| DentalChart.CountsInRange | static/js/mtn.js:40-44 | the count lies in 0..32; more than 28 marked teeth give 0 combinations, and at most 28 give a positive number |
| DentalChart.BinomPositive | static/js/mtn.js:28-34 | C(n, k) > 0 for k ≤ n |
| DentalChart.ToggleTwice | static/js/mtn.js:16-22 | toggling one tooth twice restores the chart |
| DentalStore.IndexSortKey | views/news/autotransplant_news.py:47 | `gsi1sk` is the publish time when present and non-empty, else `0001-01-01T00:00:00Z`; never empty |
| DentalStore.RecordOfWellFormed | views/news/autotransplant_news.py:36-49 | the item written has `pk = "URL#"+hash(url)`, `sk = "METADATA"`, `gsi1pk = "KIND#<kind>#LANG#<lang>"` (a None rendered as "None") and the fallback sort key, and keeps the article's url, title, summary and publish time |
| DentalStore.InvAfterInsert | views/news/autotransplant_news.py:38-52 | inserting a record under a fresh key keeps the table invariant: every record well formed, the index sound, complete and strictly newest first |
| DentalStore.InvAfterDelete | views/news/autotransplant_news.py:344-346 | `delete_item` of a stored key keeps the same invariant |
| DentalStore.DistinctPks | views/news/autotransplant_news.py:57-67 | no index partition lists one table key twice |
| DentalStore.DentalTable.constructor | views/news/autotransplant_news.py:29-30 | an empty table and index satisfy the invariant, with the given URL hash |
| DentalStore.DentalTable.PutUnique | views/news/autotransplant_news.py:35-55 | a storage fault other than the conditional-check failure propagates and changes nothing; an existing key returns False and leaves the stored record and index unchanged; otherwise True, the table gains exactly the new record and its partition gains its entry in newest-first position |
| DentalStore.DentalTable.Delete | views/news/autotransplant_news.py:344-346 | a failing delete changes nothing; otherwise the key's record and its index entry are removed and nothing else; the invariant is kept |
| DentalStore.DentalTable.Query | views/news/autotransplant_news.py:57-67 | a `Limit` below 1 is a validation error; otherwise min(limit, remaining) items come back, and `LastEvaluatedKey` is present iff the limit was reached |
| DentalStore.DentalTable.QueryReadsRemaining | views/news/autotransplant_news.py:57-67 | the items are the stored records of the partition entries after the start key, in index order |
| DentalStore.DentalTable.QueryWithinPartition | views/news/autotransplant_news.py:60 | every item returned belongs to the `KIND#…#LANG#…` partition asked for, and at most `limit` come back |
| DentalStore.DentalTable.QueryNewestFirst | views/news/autotransplant_news.py:61 | `ScanIndexForward=False`: items come back in non-increasing `gsi1sk` order |
| DentalStore.DentalTable.QueryNextIsLast | views/news/autotransplant_news.py:66-67 | the `LastEvaluatedKey` is the key of the last item of the page |
| DentalStore.DentalTable.QueryBelowStart | views/news/autotransplant_news.py:64-65 | with an `ExclusiveStartKey`, every item lies strictly after that key in index order |
| DentalStore.DentalTable.QueryLastIsOldest | views/news/autotransplant_news.py:61 | the last item of a page is strictly older in index order than every other item of the page |
| DentalStore.DentalTable.QueryResumesAfterLast | views/news/autotransplant_news.py:64-67 | feeding a page's `LastEvaluatedKey` back gives a page whose items all come strictly after the first page's: pages never overlap or go back |
| DentalRelevance.IsRelevant | views/news/autotransplant_news.py:91-93 | an empty or missing title is never relevant |
| DentalRelevance.IsRelevantIff | views/news/autotransplant_news.py:91-122 | relevant iff the title is non-empty, no lowercased deny term of the language occurs in `f"{t} {s}"`, and some lowercased allow term does; the lists are the Japanese ones iff `lang == "ja"` |
| DentalRelevance.DenyInTitleRejects | views/news/autotransplant_news.py:119-120 | a deny term anywhere in the title rejects |
| DentalRelevance.DenyInSummaryRejects | views/news/autotransplant_news.py:119-120 | a deny term anywhere in the summary rejects |
| DentalRelevance.AllowInTitleAccepts | views/news/autotransplant_news.py:121 | a non-empty title holding an allow term, with no deny term in the text, is accepted |
| DentalRelevance.AllowInSummaryAccepts | views/news/autotransplant_news.py:96-121 | an allow term in the summary alone is enough, with a non-empty title and no deny term |
| DentalRelevance.AdAnywhereRejects | views/news/autotransplant_news.py:117-120 | as written: every English title with the letters "ad" anywhere ("head", "adolescent", "loading") is rejected |
| DentalRelevance.RelevantByWords | views/news/autotransplant_news.py:91-122 | corrected: as `is_relevant`, but an English deny term must stand as a word of its own; the same iff with whole-word matching |
| DentalRelevance.RelevantThenByWords | views/news/autotransplant_news.py:91-122 | corrected: every item the test as written keeps, the corrected test keeps too |
| DentalRelevance.AdolescentsRelevantByWords | views/news/autotransplant_news.py:116-122 | corrected: "Tooth autotransplantation in adolescents" with no summary, rejected as written, is relevant in English |
| DentalRelevance.ByWordsAgreesInJapanese | views/news/autotransplant_news.py:97-108 | for Japanese items the corrected test equals the test as written |
| DentalRelevance.AdWordRejects | views/news/autotransplant_news.py:117 | in the corrected test "ad" standing as a word still rejects |
| DentalRelevance.ClassifyKind | views/news/autotransplant_news.py:125-131 | "case" iff the lowercased title holds a case term; "video" iff it holds no case term and some video term; "research" otherwise |
| DentalSweep.PageIsNext | views/news/autotransplant_news.py:337-354 | during the cleanup, each page read resumes exactly where the previous page ended in the snapshot of the partition, even after deletions; a page without `LastEvaluatedKey` reaches the end |
| DentalSweep.SweptAll | views/news/autotransplant_news.py:333-354 | once the sweep of a partition is done, the table is the original less exactly the doomed keys of that partition |
| DentalSweep.SweptAllSize | views/news/autotransplant_news.py:333-354 | the table shrinks by the number of doomed items visited, and no more than were visited |
| DentalCleanup.SweepItem | views/news/autotransplant_news.py:341-352 | one item: deleted iff it fails `is_relevant` and its delete does not raise; the sweep state moves on by one |
| DentalCleanup.SweepPage | views/news/autotransplant_news.py:341-352 | every item of the page is checked, and the removed count grows by the number of doomed items among them |
| DentalCleanup.SweepRound | views/news/autotransplant_news.py:336-354 | one query and its page: the state moves past the page; the loop stops iff the partition is exhausted, else it resumes from the page's last item |
| DentalCleanup.SweepPartition | views/news/autotransplant_news.py:334-354 | the inner `while True` visits every item of the partition once and counts each doomed one |
| DentalCleanup.CleanupPartition | views/news/autotransplant_news.py:333-354 | one partition: the table loses exactly its irrelevant items whose delete succeeds; the other partitions are untouched; `checked` is the partition's size and `removed` how many rows left, at most `checked` |
| DentalCleanup.TargetKeysDistinct | views/news/autotransplant_news.py:327-330 | the six (kind, lang) targets name six distinct partitions |
| DentalCleanup.CleanedSetIff | views/news/autotransplant_news.py:327-352 | a key is removed by the first n targets iff it is stored in one of their partitions and is doomed for that partition's language |
| DentalCleanup.CleanupTarget | views/news/autotransplant_news.py:333-354 | one pass of the outer loop: the stored items go from those left after `i` targets to those left after `i + 1`, the later target partitions are unchanged, and `checked` grows by the size of partition `i` |
| DentalCleanup.NewsAdminCleanup | views/news/autotransplant_news.py:325-360 | the whole cleanup: the table loses exactly the doomed items of the six partitions; `checked` is the sum of their sizes, `removed` the number of rows gone (at most `checked`), and the message reports both |
| DentalCleanup.OutsideTargetsKept | views/news/autotransplant_news.py:327-330 | an item outside the six partitions survives |
| DentalCleanup.RelevantKept | views/news/autotransplant_news.py:344 | a relevant item survives |
| DentalCleanup.IrrelevantGone | views/news/autotransplant_news.py:344-348 | an irrelevant item of a target partition whose delete succeeds is gone |
| DentalCollect.PublishedAt | views/news/autotransplant_news.py:176-186 | the publish time is the converted feed date only when the entry has a published or updated date that converted; otherwise it is the current time |
| DentalCollect.HarvestArticleFacts | views/news/autotransplant_news.py:165-198 | an entry becomes an article iff it has a link and its stripped title passes `is_relevant`; the article has that url and title, source "google_news", no image, and is indexed under the `classify_kind` partition of the feed's language by its publish time |
| DentalCollect.DecisionsAt | views/news/autotransplant_news.py:165-200 | the decision for the i-th entry is that entry's own harvest result |
| DentalCollect.AcceptedIff | views/news/autotransplant_news.py:165-200 | an article is among those offered to the store iff some entry harvests to it |
| DentalCollect.PutAllKeeps | views/news/autotransplant_news.py:35-55 | conditional puts never change or remove a record already stored |
| DentalCollect.PutAllStores | views/news/autotransplant_news.py:35-55 | after the puts, every offered article's key is stored |
| DentalCollect.PutAllAdds | views/news/autotransplant_news.py:35-55 | every newly stored key holds the record of one of the offered articles |
| DentalCollect.PutAllAgain | views/news/autotransplant_news.py:35-55 | offering the same articles again changes nothing: a rerun is idempotent |
| DentalCollect.PutAllStable | views/news/autotransplant_news.py:35-55 | offering only URLs already stored leaves the table as it was |
| DentalCollect.StopAt | views/news/autotransplant_news.py:168-205 | where the feed loop ends: at the first entry that is harvested and whose put raises, or after the last entry; no entry before that point raises |
| DentalCollect.FetchGoogleNews | views/news/autotransplant_news.py:165-207 | the loop fails exactly when some harvested entry's put raises. Then the table holds the conditional puts of the accepted entries before the first such entry, and the error is that entry's exception. Otherwise the table holds the puts of all accepted entries in feed order, and `saved` is the number of new rows |
| DentalCollect.HarvestAt | views/news/autotransplant_news.py:168-205 | one pass of the loop: it raises exactly when this entry's put does, and then the loop stops here with the table unchanged; otherwise the table is the puts of the accepted entries up to this one, and `saved` still counts the new rows |
| DentalCollect.HarvestOne | views/news/autotransplant_news.py:164-200 | one entry: an error iff it is harvested and its put raises, and then the table is unchanged; otherwise the table gets the conditional put, and True means exactly one new row |
| DentalCollect.PutNewCard | views/news/autotransplant_news.py:35-55 | a conditional put adds one row for a new key and none for a stored one |
| DentalCollect.FetchPubmedArticles | views/news/autotransplant_news.py:210-226 | the sample article is put once: a fault propagates with nothing changed; otherwise its key is stored, the count is the number of new rows (0 or 1), and count 1 means exactly its record was added |
| DentalCollect.StepOutcome | views/news/autotransplant_news.py:287-301 | `_step` passes a count through, and turns an exception into count 0 and one message `"<label> failed: …"` |
| DentalCollect.PlanStep | views/news/autotransplant_news.py:304-315 | the six steps run in order: three Japanese Google News queries, two English ones, then PubMed |
| DentalCollect.Step | views/news/autotransplant_news.py:287-301 | the table after `_step` is what its collector stored before it returned or raised: the puts of the feed's entries before the first that raised, or the PubMed sample unless its put raised. The count and messages are `_step`'s reading of what the collector returned: that entry's or the sample's exception, otherwise the number of new rows |
| DentalCollect.StepOutcomeBounds | views/news/autotransplant_news.py:287-301 | a step leaves at most one message, which names the step; its count never exceeds the rows it added, and equals them when it left no message |
| DentalCollect.AddCount | views/news/autotransplant_news.py:304-313 | a Japanese feed's count goes to `google_news_ja`, an English feed's to `google_news_en`, the PubMed count to `pubmed`; the other counts stay, the total rises by the count, and the step's messages are appended |
| DentalCollect.StepBucket | views/news/autotransplant_news.py:304-313 | steps 0 to 2 add to `google_news_ja` and step 5 to `pubmed`; steps 3 and 4 add to `google_news_en` |
| DentalCollect.CollectAutotransplantNews | views/news/autotransplant_news.py:276-321 | the table ends as the six planned steps leave it one after the other, and `results` is those steps' results dict. The total is the sum of the counts; the YouTube counts stay 0; there are at most six messages; the total never exceeds the rows added, and equals them when no step failed |
| DentalCollect.CollectedTotal | views/news/autotransplant_news.py:303-319 | after any prefix of the plan nothing stored before is lost or changed, the YouTube counts are 0, each step leaves at most one message, and the counts add up to at most the rows added, exactly when there is no message |
| DentalCollect.CollectedBuckets | views/news/autotransplant_news.py:303-319 | after the plan, `google_news_ja` is the sum of the counts of the three Japanese steps, `google_news_en` that of the two English steps, `pubmed` the PubMed step's count; the YouTube counts are 0, and `_errors` holds the steps' messages in step order |
| DentalPaging.Encode | views/news/autotransplant_news.py:260-262 | the serialised start key is never empty, so a present key always yields a token |
| DentalPaging.DecodeEncode | views/news/autotransplant_news.py:260-269 | decoding an encoded start key gives the key back |
| DentalPaging.EncTok | views/news/autotransplant_news.py:260-262 | `_enc_tok` gives None exactly for no key, and a non-empty token otherwise |
| DentalPaging.DecTok | views/news/autotransplant_news.py:264-265 | a missing or empty token decodes to no start key |
| DentalPaging.TokenRoundTrip | views/news/autotransplant_news.py:260-269 | `_dec_tok(_enc_tok(k)) == k` for every start key |
| DentalPaging.ListNews | views/news/autotransplant_news.py:271-274 | a `Limit` below 1 is an error; otherwise the next token is present iff the page was full |
| DentalPaging.NextTokenDecodes | views/news/autotransplant_news.py:260-274 | the token `list_news` returns decodes to the query's `LastEvaluatedKey`, absent or not |
| DentalPaging.ListNewsTokenIsLastItem | views/news/autotransplant_news.py:271-274 | a returned token stands for the key of the page's last item |
| DentalPaging.NextPageStrictlyAfter | views/news/autotransplant_news.py:271-274 | the page fetched with the returned token holds only items strictly after every item of the first page |
| DentalPaging.LatestLimit | views/news/autotransplant_news.py:388 | `min(int(limit), 20)`: 5 when absent; None (ValueError) iff `int()` rejects the text; never above 20; otherwise the parsed number, or 20 when it is larger |
| DentalPaging.Payload | views/news/autotransplant_news.py:391-399 | the payload keeps only items with a title and a url, and cuts `published_at` to at most ten characters |
| DentalPaging.PayloadIff | views/news/autotransplant_news.py:391-399 | an entry is in the payload iff some listed item shapes to it |
| DentalPaging.PayloadAllListed | views/news/autotransplant_news.py:391-399 | when every item has a title and a url, the payload has one entry per item, in order |
| DentalPaging.NewsApiLatest | views/news/autotransplant_news.py:385-406 | an error iff the limit does not parse or is below 1; otherwise kind and lang default to research/ja, `count` is the number of payload entries (at most 20), `updated_at` is the current time, and the items are the payload of the first query page |
| FixPaths.IndexByTitleDomain | fix_dynamodb.py:41 | the title index has exactly the titles of the RDS rows as keys |
| FixPaths.IndexByTitleLastWins | fix_dynamodb.py:41 | for a repeated title the last row wins |
| FixPaths.Source | fix_dynamodb.py:47-53 | a post has a source row iff its title (or "") is indexed and that row's `stl_file_path` is truthy, and the source is that row |
| FixPaths.SetPaths | fix_dynamodb.py:56-63 | the update sets `stl_file_path` and `gltf_file_path` to the same path and `stl_filename` to the given name, and keeps the id, title and every other attribute |
| FixPaths.Repaired | fix_dynamodb.py:51-72 | a post is changed only when it is updated, and then gets the source row's path and `stl_filename or ""` |
| FixPaths.CountUpdated | fix_dynamodb.py:43-72 | the number of updated posts is at most the number of posts |
| FixPaths.PostsTable.UpdatePaths | fix_dynamodb.py:56-63 | `update_item`: a failing call changes nothing; otherwise the item with that id is updated in place, or created with only these attributes when the id is missing |
| FixPaths.RepairOne | fix_dynamodb.py:46-72 | one pass of the loop changes only the visited post, into `Repaired` of it, and reports success iff the post has a source row and its update did not fail |
| FixPaths.RepairAll | fix_dynamodb.py:43-72 | each scanned post adds one to exactly one counter: `updated + failed` is the number of posts, `updated` counts the posts repaired, and each post ends as `Repaired` of its old self |
| Paths.Basename | views/main.py:416 | `os.path.basename`: the last segment, with no '/', a suffix of the path, preceded by '/' when shorter |
| Paths.SplitExt | views/main.py:386 | `os.path.splitext`: base + ext is the key, and the ext is empty or a '.' followed by no further '.' or '/' |
| MainViews.CandidateInjective | views/main.py:394 | different counters give different `f"{base}_{counter}{ext}"` keys |
| MainViews.CandidateNotPlain | views/main.py:394 | a numbered candidate never equals the plain key |
| MainViews.TriedBound | views/main.py:391-397 | the loop cannot try more taken keys than the bucket holds, so it ends |
| MainViews.UniqueFilename | views/main.py:382-399 | the key returned is free; a free key is returned unchanged; otherwise it is the first free `base_n.ext` with n ≥ 1 |
| MainViews.UploadKeyPrefix | views/main.py:419-420 | every upload key starts with `uploads/` |
| MainViews.Bucket.UploadOne | views/main.py:415-440 | one upload stores a key that was free and starts with `uploads/`, and adds exactly that key |
| MainViews.Bucket.UploadFiles | views/main.py:413-441 | one key per file, each new to the bucket, distinct from the others and under `uploads/`; the bucket gains exactly those keys |
| MainViews.UniqueKeepsPrefix | views/main.py:420-423 | making a key unique keeps its `uploads/` prefix |
| MainViews.PageCount | views/main.py:593 | the ceiling division: 0 pages iff no images, else (pages−1)·12 < total ≤ pages·12 |
| MainViews.ClampPage | views/main.py:596-599 | the page is moved into 1..pages when there are pages; a page inside the range is kept; with no pages, only a page below 1 becomes 1 |
| MainViews.BrowserPagination | views/main.py:591-613 | the pagination dict: total, pages, the current page clamped, `has_prev`/`has_next` and their numbers, and `page_range` from max(1, p−2) to min(pages+1, p+3) |
| MainViews.PageRangeInBounds | views/main.py:612 | the page range lies within 1..pages and within two pages of the current one |
| MainViews.ShownIsPage | views/main.py:602-604 | for a non-empty listing, the shown images are `all_images[start:end]` with a start inside the list, between 1 and 12 of them |
| MainViews.ImagesUpToIndex | views/main.py:568-588 | one image record per object, the j-th made from the j-th object |
| MainViews.NewestFirst | views/main.py:588 | the sort by `last_modified`, newest first, is a permutation and is sorted |
| MainViews.CollectImages | views/main.py:568-585 | the loop builds the image records of the listing, in listing order |
| MainViews.ShownAtMostAPage | views/main.py:590-604 | at most twelve images are shown, whatever page is asked for |
| MainViews.S3Browser | views/main.py:549-624 | no `Contents` gives no images with total and pages 0; otherwise the pagination is that of the listing's size and the images are the requested page of the newest-first records, at most twelve |
| MigrateQdrant.Filtered | views/news/migrate_qdrant.py:29-33 | the `source = pubmed` filter keeps exactly the PubMed items of a page, in order |
| MigrateQdrant.ScanFromPubmed | views/news/migrate_qdrant.py:28-43 | everything gathered by the scan loop is a PubMed item, and every PubMed item of the first page is gathered |
| MigrateQdrant.GetPubmedItems | views/news/migrate_qdrant.py:18-46 | the `while True` loop gathers the filtered items of every page in order, following `LastEvaluatedKey` until it is missing or empty |
| MigrateQdrant.ConvertItem | views/news/migrate_qdrant.py:54-75 | an item is converted iff its `pmid`, or else the last segment of a pubmed.ncbi.nlm.nih.gov url, is non-empty; the result has source "pubmed", lang "en" and that pmid |
| MigrateQdrant.ConvertedShorter | views/news/migrate_qdrant.py:50-77 | conversion never adds items |
| MigrateQdrant.ConvertedIff | views/news/migrate_qdrant.py:50-77 | a record is produced iff some input item converts to it |
| MigrateQdrant.ConvertedArePubmed | views/news/migrate_qdrant.py:66-75 | every converted record is an English PubMed record with a pmid |
| MigrateQdrant.ConvertItems | views/news/migrate_qdrant.py:50-77 | the loop produces the conversions of the input items, in order, skipping those without a pmid |
| MigrateQdrant.Migrate | views/news/migrate_qdrant.py:80-116 | no items found, or an answer other than "y" after strip/lower, leaves the store unchanged; a migration happens only with items and a "y"; a successful save grows the store by `saved` points; a migration stores exactly what saving the PubMed papers converted from the whole scan, in scan order, stores, and reports its result |
| PubmedSections.Name | views/news/pubmed_vector_store.py:139-146 | every section key is non-empty and has no '_' (so it can sit between underscores in a point id) |
| PubmedSections.NameInjective | views/news/pubmed_vector_store.py:139-146 | different sections have different keys |
| PubmedSections.IdentifyInIff | views/news/pubmed_vector_store.py:185-192 | no section is found iff no keyword of any table entry occurs in the title; a found section is the first table entry, in table order, with a keyword in the title |
| PubmedSections.FirstMatch | views/news/pubmed_vector_store.py:185-192 | the first entry whose keywords match decides the section |
| PubmedSections.SummaryIsConclusions | views/news/pubmed_vector_store.py:41-192 | a "Summary" heading counts as conclusions |
| PubmedSections.ResultsIsResults | views/news/pubmed_vector_store.py:39-192 | a "Results" heading counts as results |
| PubmedSections.NeverAbstract | views/news/pubmed_vector_store.py:36-42 | no heading is classed as the abstract, which has no keywords |
| PubmedSections.Collapse | views/news/pubmed_vector_store.py:196 | `re.sub(r'\s+', ' ', …)` is empty iff its input is, and keeps a leading non-space |
| PubmedSections.CollapseCollapsed | views/news/pubmed_vector_store.py:196 | after the substitution every whitespace run is one space |
| PubmedSections.CollapseNoop | views/news/pubmed_vector_store.py:196 | the substitution leaves already collapsed text alone |
| PubmedSections.CleanTextClean | views/news/pubmed_vector_store.py:194-198 | `_clean_text` gives text with no leading or trailing whitespace and single spaces inside |
| PubmedSections.CleanTextOfClean | views/news/pubmed_vector_store.py:194-198 | clean text is returned unchanged |
| PubmedSections.CleanTextIdempotent | views/news/pubmed_vector_store.py:194-198 | cleaning twice is cleaning once |
| PubmedSections.FindFirst | views/news/pubmed_vector_store.py:153-158 | `find(tag)`: a found element has that tag and is a child; none is found iff no child has it |
| PubmedSections.FindAll | views/news/pubmed_vector_store.py:160 | `findall(tag)` keeps exactly the elements with that tag |
| PubmedSections.PieceAt | views/news/pubmed_vector_store.py:160-168 | the i-th piece is the contribution of the i-th `sec` |
| PubmedSections.UnrecognisedIgnored | views/news/pubmed_vector_store.py:161-164 | a `sec` with no title, or whose title names no section, adds nothing |
| PubmedSections.RecognisedAppends | views/news/pubmed_vector_store.py:164-168 | a recognised `sec` appends " " + its text without the title to its own section only |
| PubmedSections.AbstractNotAccumulated | views/news/pubmed_vector_store.py:158-168 | the body never adds to the abstract |
| PubmedSections.SecPiece | views/news/pubmed_vector_store.py:161-168 | one loop pass computes that `sec`'s piece; it never targets the abstract |
| PubmedSections.AddBodySections | views/news/pubmed_vector_store.py:157-168 | the body loop leaves the abstract as it was and sets every other section to the accumulation of its pieces in document order |
| PubmedSections.Position | views/news/pubmed_vector_store.py:139-146 | each section has one place in the dict's key order |
| PubmedSections.CleanSections | views/news/pubmed_vector_store.py:171-172 | every section is replaced by its cleaned text |
| PubmedSections.ParsePmcXml | views/news/pubmed_vector_store.py:137-177 | all six sections are present and clean; a document that fails to parse gives six empty sections; otherwise the abstract is the cleaned abstract text and every other section the cleaned accumulation of its body `sec`s |
| PubmedStore.PmidFrom | views/news/pubmed_vector_store.py:220-224 | a non-empty `pmid` is used as is; without one, and with no pubmed.ncbi.nlm.nih.gov in the url, the pmid is "" |
| PubmedStore.PmidIsLastSegment | views/news/pubmed_vector_store.py:222-224 | from a PubMed url the pmid is the last '/'-free segment of the url without trailing slashes, preceded by a '/' when it is not the whole url |
| PubmedStore.PointIdInjective | views/news/pubmed_vector_store.py:200-202 | the name hashed for a point id determines (pmid, section, language): different chunks never share an id |
| PubmedStore.EmbedInput | views/news/pubmed_vector_store.py:54-57 | the embedded text is a prefix of at most 8000 characters, the whole text when it is short enough |
| PubmedStore.TranslateInput | views/news/pubmed_vector_store.py:68-70 | the translated text is a prefix of at most 6000 characters, the whole text when it is short enough |
| PubmedStore.Translate | views/news/pubmed_vector_store.py:65-101 | "" for an empty text, one under 10 non-blank characters, or a failed service call; otherwise the stripped answer to the truncated text |
| PubmedStore.BaseSections | views/news/pubmed_vector_store.py:234-241 | all six sections, the abstract being the summary and the rest "" |
| PubmedStore.Merged | views/news/pubmed_vector_store.py:246-253 | every section takes the full text's value when that is present and non-empty, else keeps the base value |
| PubmedStore.SaveFromSound | views/news/pubmed_vector_store.py:267-366 | the section loop, whenever it succeeds, yields distinct-keyed points, each with a fresh id of its own (pmid, section, language), its section's weight, a long-enough section, and for Japanese the translated title, with one saved count per point |
| PubmedStore.PlanPoints | views/news/pubmed_vector_store.py:218-376 | a successful `save_paper` plan saves one count per point, with distinct ids not yet stored, the id of each chunk, weight 1.0 for the abstract and 0.8 otherwise, and one Japanese title for all Japanese points |
| PubmedStore.ShortSectionsIgnored | views/news/pubmed_vector_store.py:267-269 | no point is made for a section that is empty or under 50 non-blank characters |
| PubmedStore.StoredSectionSkipped | views/news/pubmed_vector_store.py:272-363 | a section whose English and Japanese ids are both stored adds nothing and counts two skips when long enough, none otherwise |
| PubmedStore.AllStoredSkipped | views/news/pubmed_vector_store.py:267-366 | with every id of the paper stored, the loop adds no point and counts two skips per long-enough section |
| PubmedStore.RerunSkipsEverything | views/news/pubmed_vector_store.py:218-376 | saving a paper whose every chunk is already stored saves nothing |
| PubmedStore.EnStepComplete | views/news/pubmed_vector_store.py:272-305 | the English half adds exactly the English point of its section when that id is not stored, and counts one skip when it is |
| PubmedStore.JaEmbedHas | views/news/pubmed_vector_store.py:311-358 | a translated section adds exactly its Japanese point and no skip |
| PubmedStore.JaStepComplete | views/news/pubmed_vector_store.py:308-363 | the Japanese half adds the Japanese point exactly when the id is not stored and the translation is non-empty, and counts one skip when the id is stored |
| PubmedStore.SectionStepComplete | views/news/pubmed_vector_store.py:267-366 | one loop pass adds exactly its section's wanted chunks and counts its stored ones |
| PubmedStore.SaveFromHas | views/news/pubmed_vector_store.py:267-366 | from the i-th section on, the loop adds a chunk iff it is wanted and its section comes at or after i |
| PubmedStore.SaveFromSkipped | views/news/pubmed_vector_store.py:267-366 | the skip count grows by exactly the stored chunks of long-enough sections from the i-th on |
| PubmedStore.PlanComplete | views/news/pubmed_vector_store.py:218-376 | a successful plan holds a chunk iff its section is long enough, its id is not stored and (for Japanese) its translation is non-empty; `skipped` is the number of stored chunks of long-enough sections |
| PubmedStore.Upsert | views/news/pubmed_vector_store.py:369-373 | after an upsert every new point and every old id is stored |
| PubmedStore.UpsertSize | views/news/pubmed_vector_store.py:369-373 | upserting distinct new ids grows the store by their number |
| PubmedStore.VectorStore.constructor | views/news/pubmed_vector_store.py:103-136 | the store starts with the given points |
| PubmedStore.VectorStore.Exists | views/news/pubmed_vector_store.py:204-214 | `check_exists` is true iff the chunk's id is stored |
| PubmedStore.OverriddenUpToIs | views/news/pubmed_vector_store.py:246-253 | after the first `n` keys of the loop, a key holds its full text exactly when it is among those keys and its full text is present and non-empty, else its abstract-only value |
| PubmedStore.VectorStore.MergeFulltext | views/news/pubmed_vector_store.py:246-253 | the loop over the full text gives the merged sections |
| PubmedStore.VectorStore.EnglishHalf | views/news/pubmed_vector_store.py:272-305 | the method computes the English half of a section |
| PubmedStore.VectorStore.AddJapanese | views/news/pubmed_vector_store.py:312-358 | the method computes the Japanese point of a translated section, translating the title once |
| PubmedStore.VectorStore.JapaneseHalf | views/news/pubmed_vector_store.py:308-363 | the method computes the Japanese half of a section |
| PubmedStore.VectorStore.SaveSections | views/news/pubmed_vector_store.py:267-366 | the loop computes the section plan in the dict's order |
| PubmedStore.VectorStore.SavePaper | views/news/pubmed_vector_store.py:218-376 | no pmid: `{saved: 0, skipped: 0}` and nothing stored; an error leaves the store unchanged; otherwise the counters are the plan's and the store is the old one with the plan's points upserted, grown by `saved` |
| PubmedStore.PubmedOnly | views/news/pubmed_vector_store.py:383 | keeps exactly the items whose source is "pubmed" |
| PubmedStore.PubmedOnlyAppend | views/news/pubmed_vector_store.py:383 | the filter distributes over concatenation, so the kept items stay in their input order |
| PubmedStore.SavePaperAddsFresh | views/news/pubmed_vector_store.py:218-376 | every plan saves fresh, distinct ids, one count each |
| PubmedStore.SaveAllGrows | views/news/pubmed_vector_store.py:397-402 | saving papers one after another never loses a stored id, and grows the store by the points saved |
| PubmedStore.SaveEach | views/news/pubmed_vector_store.py:397-402 | the loop saves the items in order and sums their counters |
| PubmedStore.SavePubmedItems | views/news/pubmed_vector_store.py:379-413 | only PubMed items are saved; none gives zero totals and an unchanged store; the store only grows, by `total_saved` points |
| StlStore.IfTruthy | utils/stl_dynamo.py:36-52 | an optional attribute is written iff it is truthy, and then unchanged |
| StlStore.NewPostAttributes | utils/stl_dynamo.py:13-55 | the new item has the given id, user, title, content and clocks, no `updated_at`, each optional attribute exactly when truthy, and `gltf_file_path` equal to `stl_file_path` |
| StlStore.LaterFirstIsTotalPreorder | utils/stl_dynamo.py:108-112 | the descending `created_at` order is a total preorder |
| StlStore.EarlierFirstIsTotalPreorder | utils/stl_dynamo.py:163 | the ascending `created_at_ts` order is a total preorder |
| StlStore.CommentsOf | utils/stl_dynamo.py:157-164 | the comments of a post, rearranged, oldest first |
| StlStore.PostsTable.constructor | utils/stl_dynamo.py:9-10 | the table starts with the given posts |
| StlStore.PostsTable.CreateStlPost | utils/stl_dynamo.py:13-55 | returns the fresh id; the table is the old one with the new item put under it; ids stay distinct |
| StlStore.PostsTable.GetStlPostById | utils/stl_dynamo.py:58-61 | finds the post with that id, None iff there is none |
| StlStore.PostsTable.DeleteStlPost | utils/stl_dynamo.py:96-98 | the table is the old one without that id |
| StlStore.PostsTable.PaginateStlPosts | utils/stl_dynamo.py:101-130 | a zero `per_page` raises; otherwise at least one page, `has_prev` iff page > 1, `has_next` iff page < pages, and the neighbour numbers exactly when those hold |
| StlStore.ListStlPostsSpec | utils/stl_dynamo.py:64-93 | only posts with STL or YouTube media, newest first by `sort_key`; each media post at most as often as stored; exactly min(limit, number of media posts) of them for a non-negative limit, all when the limit is not reached; no media post left out is newer than one kept |
| StlStore.PaginatePagesSpec | utils/stl_dynamo.py:115-120 | `pages` is the ceiling of total/per_page, and 1 for an empty table |
| StlStore.PaginateItemsSpec | utils/stl_dynamo.py:108-118 | a page holds at most `per_page` posts of the table, newest first, the ones from `(page-1)*per_page` on |
| StlStore.PageCount | utils/stl_dynamo.py:120 | `max(1, ceil(total/per_page))` is 1 for no posts and otherwise the least page count covering the total |
| StlStore.CommentsTable.constructor | utils/stl_dynamo.py:134-135 | the table starts with the given comments |
| StlStore.CommentsTable.CreateStlComment | utils/stl_dynamo.py:138-154 | returns the fresh id; the new item has `parent_comment_id` "" when none is given |
| StlStore.CommentsTable.DeleteComment | utils/stl_dynamo.py:177 | the comment with that id is gone and the rest unchanged |
| StlStore.CommentsTable.DeleteCommentsByPost | utils/stl_dynamo.py:173-177 | exactly the comments of that post are removed, the rest kept in order |
| StlStore.GetCommentsByPostSpec | utils/stl_dynamo.py:157-164 | exactly the post's comments, oldest first |
| StlStore.LikesTable.constructor | utils/stl_dynamo.py:181-182 | the table starts with the given likes |
| StlStore.LikesTable.CreateStlLike | utils/stl_dynamo.py:185-198 | returns the fresh id; the like is put under it |
| StlStore.LikesTable.DeleteStlLike | utils/stl_dynamo.py:210-212 | the like with that id is gone |
| StlStore.LikesTable.GetLikesByPost | utils/stl_dynamo.py:215-220 | exactly the likes of that post |
| StlStore.LikesTable.GetLikeByPostAndUser | utils/stl_dynamo.py:201-207 | a like of that user on that post, None iff there is none |
| StlStore.LikesTable.DeleteLikesByPost | utils/stl_dynamo.py:229-233 | exactly the likes of that post are removed |
| StlStore.FirstLike | utils/stl_dynamo.py:206-207 | the first like in scan order of that user on that post |
| StlStore.UpdatedSpec | utils/stl_dynamo.py:236-281 | title, content and `updated_at` are set; the STL fields change only when truthy; YouTube and image fields change whenever given; id, owner, clocks and `gltf_file_path` are kept |
| StlStore.UpdatedIdempotent | utils/stl_dynamo.py:236-281 | applying the same update twice is applying it once |
| StlStore.UpdateStlPost | utils/stl_dynamo.py:236-281 | the post with that id is updated in place and nothing else changes; an unknown id creates an item holding only the updated attributes |
| StlBoard.GroupStart | views/close_stl_board.py:130-133 | the captured group starts where 11 id characters follow |
| StlBoard.Group | views/close_stl_board.py:130-139 | `match.group(1)` is an 11-character video id occurring in the url at the group's start |
| StlBoard.FirstMatch | views/close_stl_board.py:137 | `re.search` finds the leftmost position where the pattern matches, and None iff it matches nowhere |
| StlBoard.LaterPatternsSubsumed | views/close_stl_board.py:129-134 | wherever a later pattern matches, the first one matches too |
| StlBoard.OnlyFirstPatternDecides | views/close_stl_board.py:136-140 | when the first pattern fails, so do all the others |
| StlBoard.ExtractYoutubeId | views/close_stl_board.py:124-140 | "" iff the first pattern matches nowhere; otherwise the 11-character id of its leftmost match, which occurs in the url |
| StlBoard.ToYoutubeEmbed | views/close_stl_board.py:142-147 | "" iff no id is found, else the embed prefix followed by the id |
| StlBoard.ExtractFromEmbed | views/close_stl_board.py:124-147 | the id is read back from the embed url made of it |
| StlBoard.EmbedRoundTrip | views/close_stl_board.py:124-147 | converting to the embed url keeps the extracted id |
| StlBoard.ToYoutubeEmbedIdempotent | views/close_stl_board.py:142-147 | converting an embed url again changes nothing |
| StlBoard.FormatOf | views/close_stl_board.py:62-99 | only .jpg, .jpeg, .png and .webp are accepted |
| StlBoard.ImageKey | views/close_stl_board.py:55-109 | an extension outside the four raises ValueError; otherwise the key starts with prefix, timestamp, "_" and the base name, ends in .jpg exactly for jpeg files (with type image/jpeg), .png for png, .webp for webp |
| StlBoard.SuffixDecides | views/close_stl_board.py:83-99 | the key's ending tells the format apart |
| StlBoard.GlbKey | views/close_stl_board.py:732-733 | the GLB key sits under STL-board/ and ends with the GLB file name |
| StlBoard.ResolveAuthor | views/close_stl_board.py:331-350 | the id is the user id or ""; a found non-empty user record gives its display name (default "Unknown User") and email; otherwise "Unknown User" with the id as email only when it holds '@' |
| StlBoard.DefaultAuthorEmail | views/close_stl_board.py:331-350 | without a table, without an id, or when the lookup raises, the author is "Unknown User" and any email shown is an address |
| StlBoard.UniqueLikesRemove | views/close_stl_board.py:530-543 | removing a like keeps at most one like per (post, user) |
| StlBoard.LikePost | views/close_stl_board.py:530-543 | 404 iff the post is missing, with likes untouched; otherwise unlike iff the user had liked it (the first such like is removed), else one new like is added; with one like per (post, user) before, the toggle keeps that and flips whether the user likes the post |
| StlBoard.UnlikeClears | views/close_stl_board.py:535-538 | removing the single like of a (post, user) leaves likes unique and none for that pair |
| StlBoard.LikeAdds | views/close_stl_board.py:539-541 | appending a like where the user had none keeps likes unique and makes the user like the post |
| StlBoard.LikeThenUnlike | views/close_stl_board.py:530-543 | liking and then removing that like restores the likes table |
| StlBoard.DeletePost | views/close_stl_board.py:548-572 | 404 iff the post is missing; 403 iff the user is neither owner nor admin; a failing S3 delete of a stored file changes nothing; otherwise the post, its comments and its likes are removed and nothing else |
| StlBoard.EditKeepsFiles | views/close_stl_board.py:713-806 | an edit keeps the STL and image files unless new ones are uploaded, sets the stripped YouTube url with its id and embed url, the title, content and `updated_at`, and keeps owner, creation time and `gltf_file_path` |
| StlBoard.EditPost | views/close_stl_board.py:699-812 | 404 iff the post is missing; 403 iff the email is not the owner's and the user is not admin; the post is updated iff the form is submitted and the STL name and uploads pass, and then only that post changes |
| TextFix.KeepSafe | utils/text_fix.py:12-13 | the result is no longer than the name and holds only A-Z, a-z, 0-9, '_', '.', '-' |
| TextFix.KeepSafeCounts | utils/text_fix.py:12-13 | every safe character occurs in the result as often as in the name, and no other character occurs |
| TextFix.NoDirectory | utils/text_fix.py:5-22 | the sanitised name holds no '/' |
| TextFix.NameIsSafe | utils/text_fix.py:12-20 | the name part of the result holds only safe characters |
| TextFix.EmptyBecomesUnnamed | utils/text_fix.py:15-16 | a name with no safe character becomes `unnamed_file`, cut to the room the extension leaves |
| TextFix.KeepsExtension | utils/text_fix.py:10-22 | the result ends with the original extension |
| TextFix.RespectsMaxLength | utils/text_fix.py:18-22 | when the extension fits, the result is at most `max_length` long |
| TextFix.LongExtensionOverflows | utils/text_fix.py:19-20 | an extension longer than `max_length` makes the slice bound negative, so characters are dropped from the end of the name and the result is longer than `max_length` |
| UsersViews.LowerKeepsSpaces | views/users.py:30 | lower-casing keeps whitespace where it was |
| UsersViews.LoginKeyIdempotent | views/users.py:30 | the login key of a login key is itself: `strip().lower()` is idempotent |
| UsersViews.NextUrlAsWritten | views/users.py:77-79 | the redirect is the index, or the given `next` when it starts with "/" |
| UsersViews.NextUrlAcceptsOtherHost | views/users.py:77-79 | the check as written lets the scheme-relative "//evil.example/", a url on another host, through |
| UsersViews.SafeNextUrl | views/users.py:77-79 | the redirect is the index, or the given `next` when it is a path on this host |
| UsersViews.SafeNextUrlAgrees | views/users.py:77-79 | the corrected redirect differs from the written one only for a `next` starting with "/" that is not a local path |
| UsersViews.Login | views/users.py:23-82 | an invalid form shows the form; an unknown login key or a failed password check logs nobody in; otherwise the user rebuilt from the item under the key is logged in, with its admin flag and profile, and sent to a safe next url |
| UsersViews.NewUserItem | views/users.py:112-127 | the new item has user_id and email both the key, administrator 0 (not admin), created_at = updated_at = now, the password hash, and `sender_name` falling back to the display name |
| UsersViews.MixedCaseRegistrationCannotLogIn | views/users.py:30-113 | registering stores the email stripped but not lower-cased, so a mixed-case address is stored under a key login never looks up |
| UsersViews.RegisterThenLogIn | views/users.py:30-130 | with the corrected registration key, the registered user is found by login and the password checks |
| UsersViews.Register | views/users.py:89-135 | a logged-in non-admin is redirected with the table unchanged; an invalid form changes nothing; an existing key is a duplicate and changes nothing; otherwise the new item is put under the key |
| UsersViews.Clean | views/users.py:152-177 | a listed row's id and user_id are the item's user_id and its admin flag is the item's |
| UsersViews.Cleaned | views/users.py:151-178 | one row per scanned item, in order |
| UsersViews.CleanAll | views/users.py:151-178 | the loop builds exactly those rows |
| UsersViews.UserMaintenance | views/users.py:137-204 | 403 iff not an administrator; otherwise the page holds the rows from `(page-1)*10` on, `has_next`/`has_prev` and the neighbour numbers as written, and `pages` the ceiling of total/10 (0 for no users) |
| UsersViews.MaintenancePage | views/users.py:185-189 | a page is at most 10 rows, the right number of consecutive rows for a start inside the list, and empty past the end |
| UsersViews.MaintenancePagesCover | views/users.py:183-201 | the pages, one after another, list every user exactly once in scan order |
| UsersViews.PagesUpToConcat | views/users.py:185-187 | the first n pages together are the first n*10 rows |
| UsersViews.AccountUpdate | views/users.py:231-247 | the form's nine fields are set, the password hash only when a password is given, and every other attribute is kept |
| UsersViews.AccountMe | views/users.py:206-281 | no email or no item redirects with the table unchanged; an invalid form shows the page; a valid one puts the updated item under the session key |
| UsersViews.EmailChangeLocksAccount | views/users.py:213-250 | after an email change the item keeps `user_id` = the old key but no item exists under the new email, so the next login with the new address fails |
| UsersViews.AccountKeyStable | views/users.py:220-250 | the update stays under the session key with its `user_id`, and its email is the form's |
| AuthUsers.AdminFlag | models/common.py:76-79 | admin only when `bool()` of the raw value, truncated to int when a Decimal, holds; never without the attribute |
| AuthUsers.AdminFlagOfWholeNumber | models/common.py:76-79 | for a whole Decimal the truncation changes nothing |
| AuthUsers.AdminFlagOfFraction | models/common.py:76-79 | a Decimal strictly between 0 and 1 is truthy but truncates to 0, so it is not admin |
| AuthUsers.Profile | models/common.py:81-94 | the profile holds exactly the item's profile attributes that are present, with their values |
| AuthUsers.AuthUser.FromItem | models/common.py:20-46 | the user keeps the item's user_id, profile, admin flag and password hash |
| AuthUsers.AuthUser.CheckPassword | models/common.py:53-56 | false without a truthy hash; otherwise the hash check decides |
| AuthUsers.LoadUser | models/common.py:63-94 | None iff no item is stored under the id; otherwise a user whose id is the item's user_id, with its admin flag, profile and hash |
| AuthUsers.NonEmpty | models/common.py:164 | `filter(None, parts)`: a string is in the result iff it is a non-empty part; the result is empty iff every part is |
| AuthUsers.NonEmptyCounts | models/common.py:164 | each non-empty part is kept as often as it occurs, and no empty one is |
| AuthUsers.NonEmptyConcat | models/common.py:164 | filtering a concatenation is concatenating the filtered pieces, so the kept parts stay in order |
| AuthUsers.JoinOfNonEmpty | models/common.py:164 | joining non-empty parts is empty iff there are none, and starts with the first |
| AuthUsers.JoinSingleSpaced | models/common.py:164 | joined space-free parts are single-spaced |
| AuthUsers.FullAddressShape | models/common.py:156-164 | the address is empty iff every part is; with a postal code it starts with "〒" and the code; otherwise it is the non-empty parts joined by spaces |
| AuthUsers.FullAddressSingleSpaced | models/common.py:156-164 | space-free parts give a single-spaced address |
| AuthUsers.User.constructor | models/common.py:121-134 | the fields are the arguments and the stored hash is the password's hash |
| AuthUsers.User.Password | models/common.py:144-146 | reading `password` always raises AttributeError |
| AuthUsers.User.SetPassword | models/common.py:148-150 | the hash is replaced by the new password's hash and nothing else changes; a hash the checker accepts makes `check_password` true |
| UserMigration.TruncToInt | migrate_hoero_users_userid_to_email.py:22-24 | `int(Decimal)` truncates toward zero: the result is the quotient rounded toward zero |
| UserMigration.ConvertShape | migrate_hoero_users_userid_to_email.py:16-25 | lists and dicts keep their shape and keys with converted members, a Decimal becomes its truncation, every other value is kept |
| UserMigration.ConvertDecimalFree | migrate_hoero_users_userid_to_email.py:16-25 | the converted value holds no Decimal |
| UserMigration.ConvertDecimalFreeFixed | migrate_hoero_users_userid_to_email.py:16-25 | a value with no Decimal is returned unchanged |
| UserMigration.ConvertIdempotent | migrate_hoero_users_userid_to_email.py:16-25 | converting twice is converting once |
| UserMigration.UsersTable.constructor | migrate_hoero_users_userid_to_email.py:28-29 | the table starts with the given items |
| UserMigration.UsersTable.Put | migrate_hoero_users_userid_to_email.py:48 | `put_item` stores the item under a non-empty string user_id and rejects any other |
| UserMigration.UsersTable.MigrateUser | migrate_hoero_users_userid_to_email.py:27-50 | no item: nothing changes; no email: KeyError and nothing changes; a usable email: the copy with user_id = email is put under it; the old record is always kept |
| UserMigration.CopyDiffersOnlyInUserId | migrate_hoero_users_userid_to_email.py:44-45 | the copy differs from the old item only in user_id, which equals its email |
| RdsMigration.PostItem | rds_dynamo.py:60-72 | the DynamoDB post has the fresh id, the user id as a string, "Untitled" for a missing or empty title, "" for missing content, `stl_file_path` = `gltf_file_path` = the RDS glTF path or "", and the RDS creation time (or now) |
| RdsMigration.ParentId | rds_dynamo.py:109-112 | "" without a parent (or parent 0); otherwise the parent's new id when it is mapped, else "" |
| RdsMigration.MapIds | rds_dynamo.py:57-99 | the mapping's keys are the old ones plus every row id |
| RdsMigration.MapIdsLastWins | rds_dynamo.py:57-99 | a row id maps to the new id of its last occurrence |
| RdsMigration.Ids | rds_dynamo.py:55-58 | the RDS ids of the rows, in row order; the same serves the comment rows at rds_dynamo.py lines 96 to 99 |
| RdsMigration.PostsWritten | rds_dynamo.py:55-78 | at most one post is written per row |
| RdsMigration.CommentsWritten | rds_dynamo.py:96-130 | at most one comment is written per row |
| RdsMigration.LikesWritten | rds_dynamo.py:147-172 | at most one like is written per row |
| RdsMigration.Migration.constructor | rds_dynamo.py:39-40 | empty mappings and the given tables |
| RdsMigration.Migration.MigrateStlPosts | rds_dynamo.py:43-81 | every row's id is mapped to its fresh id (even when its `put_item` raises); the posts table gets exactly the written items appended; nothing else changes |
| RdsMigration.Migration.MigrateStlComments | rds_dynamo.py:84-132 | every comment id is mapped before its post is checked; the comments written are those with a mapped post, in order; posts, likes and the post mapping stay as they were |
| RdsMigration.Migration.MigrateStlLikes | rds_dynamo.py:135-174 | the likes written are those with a mapped post, in order; nothing else changes |
| RdsMigration.Migration.Run | rds_dynamo.py:196-212 | posts, then comments, then likes: comments and likes are translated with the post mapping the posts step left; each table's writes fail on their own (`postFails`, `commentFails`, `likeFails`), so a post, a comment and a like sharing an RDS id fail or succeed independently |
| RdsMigration.PostMappingRecordsEveryRow | rds_dynamo.py:57-58 | a post row not repeated later maps to its own fresh id |
| RdsMigration.PostsWrittenAreRows | rds_dynamo.py:55-78 | a post item is written iff it is the item of a row whose `put_item` does not raise |
| RdsMigration.PostsWrittenSound | rds_dynamo.py:55-78 | every written post is the item of a row whose write does not raise, under that row's fresh id |
| RdsMigration.PostsWrittenComplete | rds_dynamo.py:55-78 | every row whose write does not raise has its post item written |
| RdsMigration.CommentsPointAtMappedPosts | rds_dynamo.py:101-117 | every written comment's post_id is the new id of some mapped post |
| RdsMigration.LikesWrittenAreMappedRows | rds_dynamo.py:149-172 | a like item is written iff it is the item of a row whose post is mapped and whose `put_item` does not raise |
| RdsMigration.LikesWrittenSound | rds_dynamo.py:149-172 | every written like is the item of a row whose post is mapped and whose write does not raise, under that row's fresh id and its post's new id |
| RdsMigration.LikesWrittenComplete | rds_dynamo.py:149-172 | every row whose post is mapped and whose write does not raise has its like item written |
| RdsMigration.UnmappedCommentSkipped | rds_dynamo.py:98-107 | a comment without a mapped post writes nothing, yet its id is still mapped |
| Inquiries.NewerFirstIsTotalPreorder | models/dynamodb_inquiry.py:28 | ordering by `timestamp` (0 when absent), larger first, is a total preorder |
| Inquiries.InquiryTable.constructor | models/dynamodb_inquiry.py:6-9 | the table starts with the given inquiries |
| Inquiries.InquiryTable.Create | models/dynamodb_inquiry.py:8-21 | the returned item has the fresh id, the fields given and the clock's date and timestamp, and is appended to the table |
| Inquiries.InquiryTable.GetById | models/dynamodb_inquiry.py:32-35 | the inquiry with that id, None iff there is none |
| Inquiries.InquiryTable.Delete | models/dynamodb_inquiry.py:38-40 | the table is the old one without that id |
| Inquiries.InquiryTable.Paginate | models/dynamodb_inquiry.py:43-59 | a zero `per_page` raises ZeroDivisionError; otherwise the slice from `(page-1)*per_page` of at most 1000 inquiries, the total, `has_prev` iff page > 1, `has_next` iff more follow, and the neighbour numbers exactly then |
| Inquiries.GetAllSpec | models/dynamodb_inquiry.py:24-29 | inquiries of the table, newest first, each at most as often as stored; exactly min(limit, number stored) of them for a non-negative limit, all when the limit is not reached; no inquiry left out is newer than one kept |
| Inquiries.PaginatePagesSpec | models/dynamodb_inquiry.py:44-54 | the total is capped at 1000 and `pages` is the ceiling of total/per_page, 0 when there are none |
| Inquiries.PaginateItemsSpec | models/dynamodb_inquiry.py:46-50 | a page holds at most `per_page` inquiries of the table, newest first, the ones from `(page-1)*per_page` on |
| Inquiries.CreateThenGet | models/dynamodb_inquiry.py:8-35 | a created inquiry is found by its id |
| Inquiries.DeleteThenGet | models/dynamodb_inquiry.py:32-40 | after a delete the id is gone and every other id is found as before |
| Categories.ByIdAscIsTotalPreorder | models/dynamodb_category.py:12-18 | ascending `_id` is a total preorder |
| Categories.CategoryTable.constructor | models/dynamodb_category.py:3-4 | the table starts with the given categories |
| Categories.CategoryTable.CategoryNameExists | models/dynamodb_category.py:21-30 | the loop returns what the first deciding category decides over the id-sorted list, else False |
| Categories.ListAllSpec | models/dynamodb_category.py:6-19 | the scanned categories, rearranged, in ascending id order |
| Categories.NameCheckWithoutExclude | models/dynamodb_category.py:24-30 | without `exclude_id`: True iff some category has exactly that name, never an error |
| Categories.NameCheckWithExclude | models/dynamodb_category.py:24-30 | with `exclude_id` and readable ids: True iff a category of that name has a different id |
| Categories.KeepsOwnName | models/dynamodb_category.py:28-30 | a category renamed to its own name does not clash with itself |
| Categories.NameCheckRaises | models/dynamodb_category.py:28 | a same-named category whose id `int()` cannot read raises, unless an earlier one decided |
| BlogStore.NewBlogPostFields | utils/blog_dynamo.py:32-49 | the ids read back as the integers given, each text given is stored as it is and each missing one becomes "", `category_id` is "" exactly for no category, `date` is the ISO time and the stamp is the clock's |
| BlogStore.BlogPostsTable.constructor | utils/blog_dynamo.py:7-8 | the table starts with the given posts |
| BlogStore.BlogPostsTable.CreateBlogPost | utils/blog_dynamo.py:20-54 | returns the millisecond clock as id; the item is put under its decimal form and found there afterwards |
| BlogStore.BlogPostsTable.GetPostById | utils/blog_dynamo.py:73-81 | a post whose `post_id` is the id's decimal form, None iff there is none |
| BlogStore.ListRecentPostsSpec | utils/blog_dynamo.py:56-71 | posts of the table, newest first, each at most as often as stored; exactly min(limit, number stored) of them for a non-negative limit, all when the limit is not reached; no post left out is newer than one kept |
| BlogStore.CreateThenGet | utils/blog_dynamo.py:53-81 | after a create the scan for its id yields exactly the new post |
| BlogStore.MatchingDistinct | utils/blog_dynamo.py:75-78 | with distinct ids the scan for a present id yields exactly that post |
| BlogStore.SameMillisecondReplaces | utils/blog_dynamo.py:32-53 | two posts created in the same millisecond share an id, and the second replaces the first |
| Badminton.ScheduleTable.constructor | views/uguis_badminton/routes.py:377 | the schedule table starts with the given items |
| FixPaths.PostsTable.constructor | fix_dynamodb.py:25 | the posts table starts with the given items |
| MainViews.Bucket.constructor | views/main.py:382-399 | the bucket starts with the given keys |
| MainViews.NewerFirstIsTotalPreorder | views/main.py:588 | the order by `last_modified`, newest first, is a total preorder |
| DentalStore.DentalTable.RemainingFacts | views/news/autotransplant_news.py:57-67 | what a query can still read is in index order, and every entry is a stored record of that partition with its own sort key |
| Paths.LastIndex | utils/text_fix.py:10 | `rfind`: None iff the character is absent, else its last position |
| Text.Lower | views/users.py:30 | `lower()` maps each character, length kept |
| Text.Upper | views/news/pubmed_vector_store.py:273 | `upper()` maps each character, length kept |
| Text.Strip | views/users.py:30 | `strip()` gives the text between the leading and trailing whitespace, with no whitespace at either end |
| Text.RStripChar | views/news/pubmed_vector_store.py:224 | `rstrip("/")` gives a prefix not ending in '/' |
| Text.AfterLast | views/news/pubmed_vector_store.py:224 | `split("/")[-1]` is the suffix after the last '/', holding none |
| Text.IndexOf | views/news/autotransplant_news.py:91-122 | the first position where the pattern occurs, None iff it occurs nowhere |
| Text.ParseIntOfIntToString | utils/blog_dynamo.py:38-39 | `int(str(n)) == n` for every integer |
| PySlice.Slice | models/dynamodb_inquiry.py:50 | `s[start:stop]` with Python's negative and out-of-range bounds |
| PySlice.Take | models/dynamodb_inquiry.py:29 | `s[:stop]`, a negative stop counting from the end |
| PySlice.FloorDiv | models/dynamodb_inquiry.py:54 | `//` rounds toward minus infinity |
| PySlice.CeilPages | models/dynamodb_inquiry.py:54 | `(total + per_page - 1) // per_page` is 0 for no items, else the least page count that covers them |
| Sorting.DescBy | utils/stl_dynamo.py:76-92 | `reverse=True` with an integer key orders by a total preorder in which one item may come before another exactly when its key is not smaller. It is the order of `sort_key` in utils/stl_dynamo.py and of `_key` in utils/blog_dynamo.py |
| Sorting.Sort | models/dynamodb_inquiry.py:28 | the sorted list is a permutation of the input |
| Sorting.SortSorted | models/dynamodb_inquiry.py:28 | for a total preorder, the result is sorted |
| Sorting.TakeSorted | models/dynamodb_inquiry.py:28-29 | `sorted(xs)[:limit]` is sorted, a sub-multiset of `xs` of exactly min(limit, n) elements for a non-negative limit, and every element left out may come after every element kept |
| Tables.Put | models/dynamodb_inquiry.py:20 | `put_item` replaces the item with the same key in place, or appends a new one; keys stay distinct |
| Tables.Find | models/dynamodb_inquiry.py:34-35 | `get_item` finds an item with the key, None iff there is none |
| Tables.Remove | models/dynamodb_inquiry.py:40 | `delete_item` keeps exactly the items with another key |
| Tables.Matching | utils/stl_dynamo.py:159-162 | a filtered scan keeps exactly the items with that attribute value |
| Tables.Without | utils/stl_dynamo.py:173-177 | deleting every item with that attribute value keeps exactly the others |
| Tables.PutThenFind | models/dynamodb_inquiry.py:20-34 | an item put is found under its key |
| Tables.PutThenRemove | utils/stl_dynamo.py:197-212 | putting a new key and deleting it restores the table |

## Left out

Services and primitives that are parameters or left out:
- Network, language-model and vector-store calls. The feeds, NCBI `idconv`/`efetch`, embeddings, chat translation and the Qdrant client are left out. Each appears only through the value it returned: the `Services` record of `PubmedStore`, the feed entries of `DentalCollect`, and the point map of `PubmedStore.VectorStore`. The functions `get_pmcid` and `fetch_fulltext` are fields of that record.
- Foreign primitives. `sha256`, base64/JSON, `uuid4`/`uuid5`, werkzeug password hashing, `datetime.fromisoformat`, `utcnow` and `time.time` are not modelled. Each is either a function-typed parameter (`hash`, `parseFloat`, `parseIso`, the password checker) or the value it returned (fresh ids, `now`).
- Fresh ids. A `uuid4` enters as a parameter, and the creating methods require that it is not already a key. The source relies on `uuid4` never colliding.
- Opaque tokens. The urlsafe base64 of the start key's JSON is replaced by a length-prefixed serialisation of its four fields, proved to decode back to the key (`DentalPaging.DecodeEncode`). A token that is not of that form decodes to None, and the query starts from the first page. In the source only a token that base64 or JSON cannot read gives None: a token that reads as JSON but is not a start key (`{"a": 1}`, say) is returned by `_dec_tok` as it is and then refused by the DynamoDB query as an invalid `ExclusiveStartKey`, an error the model does not have.
- XML. ElementTree parsing is not modelled. The PMC article is a tree datatype.
- `time.sleep` is left out. The rate-limit delays do not affect the data.
- Printing and logging are left out. So are Flask routing, templates, flash messages, WTForms and the Flask-Login session. The current user, admin status and form data are parameters.
- S3 is modelled as the set of keys `head_object` finds. Uploads, downloads, presigning, deletes and temp files are left out. So are PIL resizing and k-means colours, and the mesh simplification and glTF export (`reduce_stl_size`, `convert_stl_to_gltf`). `get_font` in `utils/text_fix.py` is font-file I/O and is left out. The models/users.py forms are not part of this model.
- DynamoDB. Scan and query pagination at 1 MB is not modelled, except that `MigrateQdrant` models the pages as given. Scan order is the table's sequence order. Key validation by DynamoDB is not modelled. Decimal NaN and infinity are not modelled.

Data as modelled:
- Text. Python `None` in an optional string field is `Option`; where the source writes `x or ""` the model writes `GetOr("")`. `Text.Lower` and `Text.Upper` change ASCII letters only, whereas `str.lower`/`str.upper` also fold other scripts. The keyword lists of the relevance filter are ASCII or Japanese, and Japanese has no case.
- Text.ParseInt: `int()` on a string. It accepts only an optional sign and ASCII digits amid whitespace. Python also accepts `_` between digits and non-ASCII decimal digits. These inputs are modelled as the ValueError, and the same holds for `DentalPaging.LatestLimit`.
- Numbers and times. The PubMed weights 1.0/0.8 are integer tenths (`PubmedStore.WeightTenths`). `created_at_ts` is an integer of microseconds. Datetimes are ISO strings with an integer stamp beside them. Category ids are integers.
- Sorting.Sort: a sort by a total preorder, proved sorted and a permutation of its input. The order among items with equal keys, which Python's stable sort keeps, is not stated.
- MigrateQdrant.ConvertItem: a scanned DynamoDB item is a `map<string, string>`, so an attribute cannot be NULL or non-string. In the source a NULL `url` makes the `in` test raise, and a NULL `title` makes the `[:30]` slice of the skip message raise. Neither case is modelled.
- DentalChart.Chart: the four 8-tooth quadrants are one array of 32 entries.
- DentalChart.CalculateCombination: the JavaScript loop runs on doubles and ends with `Math.round`. The model runs it on unbounded integers; every division there is exact (`DentalChart.DivExact`). For the chart's n = 28 every intermediate value is far below 2^53, so the doubles are exact too. For large n the double arithmetic would round, and that is not modelled.
- DentalCollect.FetchGoogleNews: one `now` serves the whole harvest, where the source reads the clock for each record written.
- RdsMigration.Migration.Run: `utcnow()` for a row without `created_at` is one `now` for the whole run. `ORDER BY created_at` is the given row order. A `put_item` that overwrites an existing key under a colliding `uuid4` is modelled as a new row. The verification step of `main` and its outer exception handler are left out.

Error paths admitted only in part:
- PubmedStore.Point: the payload keeps the id, vector, text, title, pmid, pmcid, section, language, weight, section text, url and full-text flag. The other fields that `save_paper` writes into the English and Japanese payloads (`category`, `topic`, `items`, `type`, `vector_id`, `original_id`, `journal`, `published_date`, `source`) are not modelled; no contract states anything about them.
- PubmedStore.VectorStore.Exists: the answer when the retrieve call succeeds. `check_exists` answers False when that call raises, and then an already stored chunk is embedded and counted as saved again. That path is not modelled.
- PubmedStore.VectorStore.SavePaper: the upsert is assumed to succeed. An upsert that raises propagates out of `save_paper` with stats lost; the model has no such path.
- PubmedStore.SavePubmedItems: an error returned by one paper ends the loop with that error. The source propagates the exception the same way; the totals of earlier papers are dropped in both.
- MainViews.UniqueFilename: `existing` holds the keys for which `head_object` succeeds. The bare `except:` of `get_unique_filename` (views/main.py:396) treats every failure of `head_object` as "free", including access and network errors; the model has only "absent".
- DentalRelevance.ClassifyKind: takes a plain string. The source's `title or ""` maps None to "", and callers of the model pass `GetOr("")`.
- StlBoard.LikePost: the toggle is exact when the likes table holds at most one like per (post, user) before the call. With duplicates already present, only the first is taken back; that case has only the general ensures.

Routes and views not modelled:
- `add_comment`, `get_all_comments`, `get_all_likes`, `view_post`, downloads and the post-creation view of `views/close_stl_board.py`. `secure_filename` is a parameter.
- DynamoDB failures after the S3 delete in `delete_post`.
- StlBoard.DeletePost compares `current_user.id`, whereas `edit_post` compares the email. The model keeps both as written.
- `logout`, `account(user_id)`, `delete_user` and `user_posts` of `views/users.py`. These use the RDS `User` model, whose extra columns and `count_posts` are not modelled.
- UsersViews.Login uses the corrected `SafeNextUrl`, and UsersViews.Register uses the corrected `RegisterKey`. See Findings.
- DentalCollect.CollectAutotransplantNews and DentalCleanup use `IsRelevant` as written. That is the filter actually deployed; the corrected `RelevantByWords` stands beside it.
- UsersViews.EmailChangeLocksAccount: a design observation, not a finding. `account_me` writes the new email into the item but keeps `user_id`, and login looks users up by email as `user_id`. So after the change, login works only under the old address: the new address finds no item. After such a login the session's user carries the new email, so the next `account_me` looks that address up, finds no item and redirects. The model states this and offers no corrected member.
- `format_date` in Badminton parses only the date part. `fromisoformat`'s time part is a `timeOk` parameter. A schedule without `participants` reads as [].
- Comparisons between timestamps of mixed types are not modelled; Python would raise a TypeError there. Every key function here maps each item to an integer.

## Findings

| source | as written | input that shows it | evidently intended | confidence | as-written member | corrected member |
|---|---|---|---|---|---|---|
| views/news/autotransplant_news.py:116-117 | the English deny list holds "ad", "organ" and "renal", matched as substrings of the lowercased title and summary | the title "Tooth autotransplantation in adolescents" contains "ad" and is rejected; so is any text with "radiograph", "organization" or "adrenal" | deny terms match as whole words in English | not executed | DentalRelevance.AdAnywhereRejects | DentalRelevance.RelevantByWords |
| views/users.py:77-79 | the redirect target is accepted when it starts with "/" | `next=//evil.example/` is protocol-relative and redirects to another host | only local paths, not starting with "//", are accepted | not executed | UsersViews.NextUrlAcceptsOtherHost | UsersViews.SafeNextUrlAgrees |
| views/users.py:99 | registration stores `user_id = email.strip()`, while login looks up `strip().lower()` (views/users.py:30) | registering as "Alice@x.jp" stores "Alice@x.jp", and logging in as "Alice@x.jp" looks up "alice@x.jp" and fails | registration stores the same normalised key that login looks up | not executed | UsersViews.MixedCaseRegistrationCannotLogIn | UsersViews.RegisterThenLogIn |
