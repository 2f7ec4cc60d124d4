/** `utils/blog_dynamo.py`: the blog posts table: a new post's record, the
    most recent posts, and the lookup by numeric id. */
module BlogStore {
  import opened Wrappers
  import opened Text
  import opened Sorting
  import opened PySlice
  import opened Tables

  /** `created_at_ts` as read back: a number (in microseconds here), a
      string written by other code, or absent. */
  datatype Stamp = StampNum(micros: int) | StampText(s: string)

  datatype BlogPost = BlogPost(
    postId: string,
    userId: string,
    title: string,
    text: string,
    summary: string,
    featuredImage: string,
    authorName: string,
    categoryId: string,
    categoryName: string,
    date: string,
    createdAtTs: Option<Stamp>)

  function PostKey(p: BlogPost): string { p.postId }

  /** `x or ""`. */
  function OrEmpty(x: Option<string>): string { x.GetOr("") }

  /** The item `create_blog_post_in_dynamo` writes: `postId` is the
      millisecond clock, `iso` and `micros` the UTC time. */
  function NewBlogPost(postId: int, userId: int, title: Option<string>, text: Option<string>,
    summary: Option<string>, featuredImage: Option<string>, authorName: Option<string>,
    categoryId: Option<int>, categoryName: Option<string>, iso: string, micros: int): BlogPost
  {
    BlogPost(IntToString(postId), IntToString(userId), OrEmpty(title), OrEmpty(text), OrEmpty(summary),
      OrEmpty(featuredImage), OrEmpty(authorName),
      if categoryId.Some? then IntToString(categoryId.value) else "",
      OrEmpty(categoryName), iso, Some(StampNum(micros)))
  }

  /** Every optional text becomes "" when missing, the ids are the decimal
      forms of the integers given, and `category_id` is "" only for no
      category. */
  lemma NewBlogPostFields(postId: int, userId: int, title: Option<string>, text: Option<string>,
    summary: Option<string>, featuredImage: Option<string>, authorName: Option<string>,
    categoryId: Option<int>, categoryName: Option<string>, iso: string, micros: int)
    ensures var p := NewBlogPost(postId, userId, title, text, summary, featuredImage, authorName, categoryId, categoryName, iso, micros);
      && ParseInt(p.postId) == Some(postId)
      && ParseInt(p.userId) == Some(userId)
      && (categoryId.None? <==> p.categoryId == "")
      && (categoryId.Some? ==> ParseInt(p.categoryId) == categoryId)
      && (title.None? ==> p.title == "") && (title.Some? ==> p.title == title.value)
      && (text.None? ==> p.text == "") && (text.Some? ==> p.text == text.value)
      && (summary.None? ==> p.summary == "") && (summary.Some? ==> p.summary == summary.value)
      && (featuredImage.None? ==> p.featuredImage == "") && (featuredImage.Some? ==> p.featuredImage == featuredImage.value)
      && (authorName.None? ==> p.authorName == "") && (authorName.Some? ==> p.authorName == authorName.value)
      && (categoryName.None? ==> p.categoryName == "") && (categoryName.Some? ==> p.categoryName == categoryName.value)
      && p.date == iso
      && p.createdAtTs == Some(StampNum(micros))
  {
    ParseIntOfIntToString(postId);
    ParseIntOfIntToString(userId);
    if categoryId.Some? {
      ParseIntOfIntToString(categoryId.value);
      assert |IntToString(categoryId.value)| > 0;
    }
  }

  /** `_key`: the stamp as a number, 0 when it is absent or not a number;
      `parseFloat` is `float()` on a string, None where it raises. */
  function SortKey(p: BlogPost, parseFloat: string -> Option<int>): int {
    match p.createdAtTs
    case None => 0
    case Some(StampNum(m)) => m
    case Some(StampText(s)) => parseFloat(s).GetOr(0)
  }

  /** `sort(key=_key, reverse=True)`. */
  function NewestFirst(parseFloat: string -> Option<int>): (BlogPost, BlogPost) -> bool {
    DescBy((p: BlogPost) => SortKey(p, parseFloat))
  }

  /** The blog posts table, keyed by `post_id`, in scan order. */
  class BlogPostsTable {
    var posts: seq<BlogPost>

    ghost predicate Valid()
      reads this
    {
      DistinctKeys(posts, PostKey)
    }

    constructor(initial: seq<BlogPost>)
      ensures posts == initial
    {
      posts := initial;
    }

    /** `create_blog_post_in_dynamo`; `clockMillis` is `int(time.time() * 1000)`.
        The returned id's decimal form is the stored `post_id`. */
    method CreateBlogPost(clockMillis: int, userId: int, title: Option<string>, text: Option<string>,
      summary: Option<string>, featuredImage: Option<string>, authorName: Option<string>,
      categoryId: Option<int>, categoryName: Option<string>, iso: string, micros: int) returns (postId: int)
      requires Valid()
      modifies this
      ensures Valid()
      ensures postId == clockMillis
      ensures posts == Put(old(posts), PostKey,
        NewBlogPost(postId, userId, title, text, summary, featuredImage, authorName, categoryId, categoryName, iso, micros))
      ensures Find(posts, PostKey, IntToString(postId)) ==
        Some(NewBlogPost(postId, userId, title, text, summary, featuredImage, authorName, categoryId, categoryName, iso, micros))
    {
      postId := clockMillis;
      var item := NewBlogPost(postId, userId, title, text, summary, featuredImage, authorName, categoryId, categoryName, iso, micros);
      PutThenFind(posts, PostKey, item);
      posts := Put(posts, PostKey, item);
    }

    /** `list_recent_posts(limit)`. */
    function ListRecentPosts(limit: int, parseFloat: string -> Option<int>): seq<BlogPost>
      reads this
    {
      Take(Sort(posts, NewestFirst(parseFloat)), limit)
    }

    /** `get_post_by_id(post_id)`: the first post whose `post_id` is the
        decimal form of the id. */
    function GetPostById(postId: int): (r: Option<BlogPost>)
      reads this
      ensures r.None? <==> forall p :: p in posts ==> p.postId != IntToString(postId)
      ensures r.Some? ==> r.value in posts && r.value.postId == IntToString(postId)
    {
      var found := Matching(posts, PostKey, IntToString(postId));
      if found == [] then None
      else
        assert found[0] in found;
        Some(found[0])
    }
  }

  /** `list_recent_posts` returns the `limit` newest posts of the table,
      newest first: each at most as often as it is stored, exactly
      min(limit, n) of them for a non-negative limit, all of them when the
      limit is not reached, and no post left out has a later sort key than
      one returned. */
  lemma ListRecentPostsSpec(table: BlogPostsTable, limit: int, parseFloat: string -> Option<int>)
    ensures var r := table.ListRecentPosts(limit, parseFloat);
      && (forall p :: p in r ==> p in table.posts)
      && multiset(r) <= multiset(table.posts)
      && Sorted(r, NewestFirst(parseFloat))
      && (limit >= 0 ==> |r| == if limit < |table.posts| then limit else |table.posts|)
      && (limit >= |table.posts| ==> multiset(r) == multiset(table.posts))
      && (forall p, q :: p in r && q in multiset(table.posts) - multiset(r) ==>
                          SortKey(p, parseFloat) >= SortKey(q, parseFloat))
  {
    var before := NewestFirst(parseFloat);
    TakeSorted(table.posts, limit, before);
    var r := table.ListRecentPosts(limit, parseFloat);
    forall p | p in r ensures p in table.posts {
      assert p in multiset(r);
    }
    forall p, q | p in r && q in multiset(table.posts) - multiset(r)
      ensures SortKey(p, parseFloat) >= SortKey(q, parseFloat)
    {
      assert before(p, q);
    }
  }

  /** A post created and then looked up by the returned id is found. */
  lemma CreateThenGet(posts: seq<BlogPost>, p: BlogPost, postId: int)
    requires DistinctKeys(posts, PostKey) && p.postId == IntToString(postId)
    ensures var after := Put(posts, PostKey, p);
      Matching(after, PostKey, IntToString(postId)) == [p]
  {
    var after := Put(posts, PostKey, p);
    MatchingDistinct(after, IntToString(postId), p);
  }

  /** With distinct ids, the scan for an id present in the table yields
      exactly that post. */
  lemma {:induction false} MatchingDistinct(s: seq<BlogPost>, id: string, p: BlogPost)
    requires DistinctKeys(s, PostKey) && p in s && p.postId == id
    ensures Matching(s, PostKey, id) == [p]
    decreases |s|
  {
    assert s[0] in s;
    assert forall i :: 1 <= i < |s| ==> s[i] in s[1..] && s[1..][i - 1] == s[i];
    if s[0] == p {
      assert forall x :: x in s[1..] ==> x.postId != id;
      MatchingNone(s[1..], PostKey, id);
    } else {
      SameKeySameItemFirst(s, p);
      MatchingDistinct(s[1..], id, p);
    }
  }

  lemma SameKeySameItemFirst(s: seq<BlogPost>, p: BlogPost)
    requires DistinctKeys(s, PostKey) && p in s && s != [] && s[0] != p
    ensures p in s[1..] && s[0].postId != p.postId && DistinctKeys(s[1..], PostKey)
  {
    var i :| 0 <= i < |s| && s[i] == p;
    assert s[1..][i - 1] == p;
  }

  /** Two posts created in the same millisecond share an id, and the second
      `put_item` replaces the first. */
  lemma SameMillisecondReplaces(posts: seq<BlogPost>, p: BlogPost, q: BlogPost)
    requires DistinctKeys(posts, PostKey) && p.postId == q.postId && p != q
    ensures var after := Put(Put(posts, PostKey, p), PostKey, q);
      q in after && p !in after
  {
    var once := Put(posts, PostKey, p);
    var after := Put(once, PostKey, q);
    assert HasKey(once, PostKey, p.postId) by {
      var i :| 0 <= i < |once| && once[i] == p;
    }
  }
}
