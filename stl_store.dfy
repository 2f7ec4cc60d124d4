/** `utils/stl_dynamo.py`: the posts, comments and likes tables of the STL
    board. Clocks and `uuid4` are parameters; timestamps are whole seconds. */
module StlStore {
  import opened Wrappers
  import opened Lex
  import opened PySlice
  import opened Sorting
  import opened Tables

  /** A `hoero-stl-posts` item; every attribute but the key may be absent. */
  datatype StlPost = StlPost(
    postId: string,
    userId: Option<string>,
    title: Option<string>,
    content: Option<string>,
    createdAt: Option<string>,
    createdAtTs: Option<int>,
    updatedAt: Option<string>,
    stlFilename: Option<string>,
    stlFilePath: Option<string>,
    gltfFilePath: Option<string>,
    youtubeUrl: Option<string>,
    youtubeId: Option<string>,
    youtubeEmbedUrl: Option<string>,
    imageFilePath: Option<string>)

  datatype Comment = Comment(
    commentId: string, postId: string, userId: string, content: string,
    parentCommentId: string, createdAt: string, createdAtTs: Option<int>)

  datatype Like = Like(likeId: string, postId: string, userId: string, createdAt: string)

  function PostKey(p: StlPost): string { p.postId }
  function CommentKey(c: Comment): string { c.commentId }
  function CommentPostId(c: Comment): string { c.postId }
  function LikeKey(l: Like): string { l.likeId }
  function LikePostId(l: Like): string { l.postId }

  /** Python truthiness of an optional string. */
  predicate Truthy(s: Option<string>) {
    s.Some? && s.value != []
  }

  /** An optional argument stored only when truthy. */
  function IfTruthy(s: Option<string>): (r: Option<string>)
    ensures r.Some? <==> Truthy(s)
    ensures r.Some? ==> r == s
  {
    if Truthy(s) then s else None
  }

  /** The item `create_stl_post` puts. */
  function NewPost(
    postId: string, title: string, content: string, userId: string,
    createdAt: string, createdAtTs: int,
    stlFilename: Option<string>, stlFilePath: Option<string>,
    youtubeUrl: Option<string>, youtubeId: Option<string>, youtubeEmbedUrl: Option<string>,
    imageFilePath: Option<string>): StlPost
  {
    StlPost(postId, Some(userId), Some(title), Some(content), Some(createdAt), Some(createdAtTs), None,
      IfTruthy(stlFilename), IfTruthy(stlFilePath), IfTruthy(stlFilePath),
      IfTruthy(youtubeUrl), IfTruthy(youtubeId), IfTruthy(youtubeEmbedUrl), IfTruthy(imageFilePath))
  }

  /** The created item keeps every optional attribute that was given
      non-empty and omits the others, and its glTF path is its STL path. */
  lemma NewPostAttributes(
    postId: string, title: string, content: string, userId: string,
    createdAt: string, createdAtTs: int,
    stlFilename: Option<string>, stlFilePath: Option<string>,
    youtubeUrl: Option<string>, youtubeId: Option<string>, youtubeEmbedUrl: Option<string>,
    imageFilePath: Option<string>)
    ensures var p := NewPost(postId, title, content, userId, createdAt, createdAtTs,
      stlFilename, stlFilePath, youtubeUrl, youtubeId, youtubeEmbedUrl, imageFilePath);
      && p.postId == postId && p.userId == Some(userId) && p.title == Some(title) && p.content == Some(content)
      && p.createdAt == Some(createdAt) && p.createdAtTs == Some(createdAtTs) && p.updatedAt.None?
      && (p.stlFilename.Some? <==> Truthy(stlFilename)) && (p.stlFilename.Some? ==> p.stlFilename == stlFilename)
      && (p.stlFilePath.Some? <==> Truthy(stlFilePath)) && (p.stlFilePath.Some? ==> p.stlFilePath == stlFilePath)
      && p.gltfFilePath == p.stlFilePath
      && (p.youtubeUrl.Some? <==> Truthy(youtubeUrl)) && (p.youtubeUrl.Some? ==> p.youtubeUrl == youtubeUrl)
      && (p.youtubeId.Some? <==> Truthy(youtubeId)) && (p.youtubeId.Some? ==> p.youtubeId == youtubeId)
      && (p.youtubeEmbedUrl.Some? <==> Truthy(youtubeEmbedUrl)) && (p.youtubeEmbedUrl.Some? ==> p.youtubeEmbedUrl == youtubeEmbedUrl)
      && (p.imageFilePath.Some? <==> Truthy(imageFilePath)) && (p.imageFilePath.Some? ==> p.imageFilePath == imageFilePath)
  {
  }

  // ----- list_stl_posts -----

  /** `has_media`: an STL file or some YouTube attribute. */
  predicate HasMedia(p: StlPost) {
    Truthy(p.stlFilePath) || Truthy(p.youtubeId) || Truthy(p.youtubeUrl) || Truthy(p.youtubeEmbedUrl)
  }

  /** `sort_key`: a non-zero `created_at_ts`, else the parsed `created_at`
      (`parseIso` is `fromisoformat(...).timestamp()`, None when it raises), else 0. */
  function SortKey(p: StlPost, parseIso: string -> Option<int>): int {
    if p.createdAtTs.Some? && p.createdAtTs.value != 0 then p.createdAtTs.value
    else parseIso(p.createdAt.GetOr("")).GetOr(0)
  }

  /** `sort(key=sort_key, reverse=True)`. */
  function ByKeyDesc(parseIso: string -> Option<int>): (StlPost, StlPost) -> bool {
    DescBy((p: StlPost) => SortKey(p, parseIso))
  }

  /** `created_at` as `paginate_stl_posts` sorts it. */
  function CreatedAt(p: StlPost): string { p.createdAt.GetOr("") }

  /** `sorted(key=created_at, reverse=True)`: ISO strings, latest first. */
  predicate LaterFirst(a: StlPost, b: StlPost) {
    StrLe(CreatedAt(b), CreatedAt(a))
  }

  lemma LaterFirstIsTotalPreorder()
    ensures TotalPreorder(LaterFirst)
  {
    forall a: StlPost, b: StlPost ensures LaterFirst(a, b) || LaterFirst(b, a) {
      StrLtTotal(CreatedAt(a), CreatedAt(b));
    }
    forall a: StlPost, b: StlPost, c: StlPost | LaterFirst(a, b) && LaterFirst(b, c)
      ensures LaterFirst(a, c)
    {
      StrLeTransitive(CreatedAt(c), CreatedAt(b), CreatedAt(a));
    }
  }

  /** What `paginate_stl_posts` returns. */
  datatype StlPage = StlPage(
    items: seq<StlPost>, page: int, pages: int, hasPrev: bool, hasNext: bool,
    prevNum: Option<int>, nextNum: Option<int>)

  // ----- comments -----

  /** `float(x.get("created_at_ts", 0))` in ascending order. */
  predicate EarlierFirst(a: Comment, b: Comment) {
    a.createdAtTs.GetOr(0) <= b.createdAtTs.GetOr(0)
  }

  lemma EarlierFirstIsTotalPreorder()
    ensures TotalPreorder(EarlierFirst)
  {
  }

  /** `get_comments_by_post` over the comments in scan order. */
  function CommentsOf(comments: seq<Comment>, postId: string): (r: seq<Comment>)
    ensures multiset(r) == multiset(Matching(comments, CommentPostId, postId))
    ensures Sorted(r, EarlierFirst)
  {
    EarlierFirstIsTotalPreorder();
    SortSorted(Matching(comments, CommentPostId, postId), EarlierFirst);
    Sort(Matching(comments, CommentPostId, postId), EarlierFirst)
  }

  /** The STL posts table. */
  class PostsTable {
    var posts: seq<StlPost>

    ghost predicate Valid()
      reads this
    {
      DistinctKeys(posts, PostKey)
    }

    constructor(initial: seq<StlPost>)
      ensures posts == initial
    {
      posts := initial;
    }

    /** `create_stl_post`; `postId` is the fresh `uuid4`, `createdAt` and
        `createdAtTs` the clock. */
    method CreateStlPost(
      postId: string, title: string, content: string, userId: string,
      createdAt: string, createdAtTs: int,
      stlFilename: Option<string>, stlFilePath: Option<string>,
      youtubeUrl: Option<string>, youtubeId: Option<string>, youtubeEmbedUrl: Option<string>,
      imageFilePath: Option<string>) returns (r: string)
      requires Valid()
      modifies this
      ensures Valid() && r == postId
      ensures posts == Put(old(posts), PostKey, NewPost(postId, title, content, userId, createdAt, createdAtTs,
        stlFilename, stlFilePath, youtubeUrl, youtubeId, youtubeEmbedUrl, imageFilePath))
    {
      var item := NewPost(postId, title, content, userId, createdAt, createdAtTs,
        stlFilename, stlFilePath, youtubeUrl, youtubeId, youtubeEmbedUrl, imageFilePath);
      posts := Put(posts, PostKey, item);
      r := postId;
    }

    /** `get_stl_post_by_id`. */
    function GetStlPostById(postId: string): (r: Option<StlPost>)
      reads this
      ensures r.None? <==> !HasKey(posts, PostKey, postId)
      ensures r.Some? ==> r.value in posts && r.value.postId == postId
    {
      Find(posts, PostKey, postId)
    }

    /** `delete_stl_post`. */
    method DeleteStlPost(postId: string)
      requires Valid()
      modifies this
      ensures Valid()
      ensures posts == Remove(old(posts), PostKey, postId)
    {
      posts := Remove(posts, PostKey, postId);
      RemoveDistinct(old(posts), PostKey, postId);
    }

    /** `list_stl_posts(limit)`: posts with media, newest first, cut at `limit`. */
    function ListStlPosts(limit: int, parseIso: string -> Option<int>): seq<StlPost>
      reads this
    {
      Take(Sort(Where(posts, HasMedia), ByKeyDesc(parseIso)), limit)
    }

    /** `paginate_stl_posts(page, per_page)`; a zero `per_page` raises
        ZeroDivisionError. */
    function PaginateStlPosts(page: int, perPage: int): (r: Result<StlPage, string>)
      reads this
      ensures r.Err? <==> perPage == 0
      ensures r.Ok? ==> r.value.pages >= 1 && r.value.page == page
      ensures r.Ok? ==> (r.value.hasPrev <==> page > 1) && (r.value.hasNext <==> page < r.value.pages)
      ensures r.Ok? ==> (r.value.prevNum.Some? <==> r.value.hasPrev) && (r.value.nextNum.Some? <==> r.value.hasNext)
      ensures r.Ok? && r.value.prevNum.Some? ==> r.value.prevNum.value == page - 1
      ensures r.Ok? && r.value.nextNum.Some? ==> r.value.nextNum.value == page + 1
    {
      if perPage == 0 then Err("ZeroDivisionError")
      else
        var items := Sort(posts, LaterFirst);
        var total := |items|;
        var start := (page - 1) * perPage;
        var pages := FloorDiv(total + perPage - 1, perPage);
        var pages := if pages >= 1 then pages else 1;
        Ok(StlPage(Slice(items, start, start + perPage), page, pages, page > 1, page < pages,
          if page > 1 then Some(page - 1) else None,
          if page < pages then Some(page + 1) else None))
    }
  }

  lemma RemoveDistinct<T(!new)>(s: seq<T>, key: T -> string, k: string)
    requires DistinctKeys(s, key)
    ensures DistinctKeys(Remove(s, key, k), key)
  {
    WhereRemove(s, key, k);
    WhereDistinct(s, x => key(x) != k, key);
  }

  lemma {:induction false} WhereRemove<T(!new)>(s: seq<T>, key: T -> string, k: string)
    ensures Remove(s, key, k) == Where(s, x => key(x) != k)
    decreases |s|
  {
    if s != [] {
      WhereRemove(s[1..], key, k);
    }
  }

  /** `list_stl_posts` returns the `limit` newest posts with media, newest
      first: each at most as often as it is stored, exactly min(limit, n) of
      them for a non-negative limit, every one of them when the limit is not
      reached, and no post with media left out has a later sort key than one
      returned. */
  lemma ListStlPostsSpec(table: PostsTable, limit: int, parseIso: string -> Option<int>)
    ensures var r := table.ListStlPosts(limit, parseIso);
      var media := Where(table.posts, HasMedia);
      && (forall p :: p in r ==> p in table.posts && HasMedia(p))
      && multiset(r) <= multiset(media)
      && Sorted(r, ByKeyDesc(parseIso))
      && (limit >= 0 ==> |r| == if limit < |media| then limit else |media|)
      && (limit >= |media| ==> multiset(r) == multiset(media))
      && (forall p, q :: p in r && q in multiset(media) - multiset(r) ==>
                          SortKey(p, parseIso) >= SortKey(q, parseIso))
  {
    var media := Where(table.posts, HasMedia);
    var before := ByKeyDesc(parseIso);
    TakeSorted(media, limit, before);
    var r := table.ListStlPosts(limit, parseIso);
    forall p | p in r ensures p in table.posts && HasMedia(p) {
      assert p in multiset(r);
      assert p in multiset(media);
    }
    forall p, q | p in r && q in multiset(media) - multiset(r)
      ensures SortKey(p, parseIso) >= SortKey(q, parseIso)
    {
      assert before(p, q);
    }
  }

  /** With a positive page size, `pages` is the ceiling of total/per_page,
      and 1 when there are no posts. */
  lemma PaginatePagesSpec(table: PostsTable, page: int, perPage: int)
    requires perPage > 0
    ensures var r := table.PaginateStlPosts(page, perPage);
      var total := |table.posts|;
      && r.Ok?
      && (total == 0 ==> r.value.pages == 1)
      && (total > 0 ==> (r.value.pages - 1) * perPage < total <= r.value.pages * perPage)
  {
    PageCount(|Sort(table.posts, LaterFirst)|, perPage);
  }

  /** The page shows the posts from `(page-1)*per_page` on, latest first,
      at most `per_page` of them, all taken from the table. */
  lemma PaginateItemsSpec(table: PostsTable, page: int, perPage: int)
    requires perPage > 0
    ensures var r := table.PaginateStlPosts(page, perPage);
      var total := |table.posts|;
      var start := (page - 1) * perPage;
      && r.Ok?
      && |r.value.items| <= perPage
      && Sorted(r.value.items, LaterFirst)
      && (forall p :: p in r.value.items ==> p in table.posts)
      && (0 <= start < total ==>
            r.value.items == Sort(table.posts, LaterFirst)[start..if start + perPage < total then start + perPage else total])
  {
    var items := Sort(table.posts, LaterFirst);
    LaterFirstIsTotalPreorder();
    SortSorted(table.posts, LaterFirst);
    var start := (page - 1) * perPage;
    SortedSlice(items, table.posts, start, perPage, LaterFirst);
    assert table.PaginateStlPosts(page, perPage).value.items == Slice(items, start, start + perPage);
  }

  /** `max(1, (total + per_page - 1) // per_page)` is the number of pages. */
  lemma PageCount(total: nat, perPage: int)
    requires perPage > 0
    ensures var q := FloorDiv(total + perPage - 1, perPage);
      var pages := if q >= 1 then q else 1;
      && (total == 0 ==> pages == 1)
      && (total > 0 ==> (pages - 1) * perPage < total <= pages * perPage)
  {
    CeilPages(total, perPage);
  }

  /** The STL comments table. */
  class CommentsTable {
    var comments: seq<Comment>

    ghost predicate Valid()
      reads this
    {
      DistinctKeys(comments, CommentKey)
    }

    constructor(initial: seq<Comment>)
      ensures comments == initial
    {
      comments := initial;
    }

    /** `create_stl_comment`; `commentId` is the fresh `uuid4`, `createdAt`
        and `createdAtTs` the clock; a missing parent is stored as "". */
    method CreateStlComment(commentId: string, postId: string, userId: string, content: string,
      parentCommentId: Option<string>, createdAt: string, createdAtTs: int) returns (r: string)
      requires Valid()
      modifies this
      ensures Valid() && r == commentId
      ensures comments == Put(old(comments), CommentKey,
        Comment(commentId, postId, userId, content, parentCommentId.GetOr(""), createdAt, Some(createdAtTs)))
    {
      var item := Comment(commentId, postId, userId, content, parentCommentId.GetOr(""), createdAt, Some(createdAtTs));
      comments := Put(comments, CommentKey, item);
      r := commentId;
    }

    /** `get_comments_by_post`. */
    function GetCommentsByPost(postId: string): seq<Comment>
      reads this
    {
      CommentsOf(comments, postId)
    }

    /** `delete_item(Key={"comment_id": ...})`. */
    method DeleteComment(commentId: string)
      requires Valid()
      modifies this
      ensures Valid()
      ensures comments == Remove(old(comments), CommentKey, commentId)
    {
      RemoveDistinct(comments, CommentKey, commentId);
      comments := Remove(comments, CommentKey, commentId);
    }

    /** `delete_comments_by_post`: every comment of the post goes, and the
        others stay in their order. */
    method DeleteCommentsByPost(postId: string)
      requires Valid()
      modifies this
      ensures Valid()
      ensures comments == Without(old(comments), CommentPostId, postId)
    {
      var targets := GetCommentsByPost(postId);
      ghost var c0 := comments;
      GetCommentsByPostSpec(this, postId);
      RemoveKeysNone(c0, CommentKey);
      KeysOfEmpty(CommentKey);
      for i := 0 to |targets|
        invariant Valid()
        invariant comments == RemoveKeys(c0, CommentKey, KeysOf(targets[..i], CommentKey))
      {
        KeysOfPrefix(targets, CommentKey, i);
        RemoveStep(c0, CommentKey, KeysOf(targets[..i], CommentKey), targets[i].commentId);
        DeleteComment(targets[i].commentId);
      }
      KeysOfWhole(targets, CommentKey);
      RemoveTargets(c0, CommentKey, targets, CommentPostId, postId);
    }
  }

  /** `get_comments_by_post` returns exactly that post's comments, each as
      often as stored, in ascending `created_at_ts`. */
  lemma GetCommentsByPostSpec(table: CommentsTable, postId: string)
    ensures var r := table.GetCommentsByPost(postId);
      && (forall c :: c in r <==> c in table.comments && c.postId == postId)
      && Sorted(r, EarlierFirst)
      && multiset(r) <= multiset(table.comments)
  {
    var r := table.GetCommentsByPost(postId);
    var m := Matching(table.comments, CommentPostId, postId);
    forall c ensures c in r <==> c in table.comments && c.postId == postId {
      assert c in r <==> c in multiset(r);
      assert c in m <==> c in multiset(m);
    }
  }

  /** The STL likes table. */
  class LikesTable {
    var likes: seq<Like>

    ghost predicate Valid()
      reads this
    {
      DistinctKeys(likes, LikeKey)
    }

    constructor(initial: seq<Like>)
      ensures likes == initial
    {
      likes := initial;
    }

    /** `create_stl_like`; `likeId` is the fresh `uuid4`, `createdAt` the clock. */
    method CreateStlLike(likeId: string, postId: string, userId: string, createdAt: string) returns (r: string)
      requires Valid()
      modifies this
      ensures Valid() && r == likeId
      ensures likes == Put(old(likes), LikeKey, Like(likeId, postId, userId, createdAt))
    {
      likes := Put(likes, LikeKey, Like(likeId, postId, userId, createdAt));
      r := likeId;
    }

    /** `delete_stl_like`. */
    method DeleteStlLike(likeId: string)
      requires Valid()
      modifies this
      ensures Valid()
      ensures likes == Remove(old(likes), LikeKey, likeId)
    {
      RemoveDistinct(likes, LikeKey, likeId);
      likes := Remove(likes, LikeKey, likeId);
    }

    /** `get_likes_by_post`. */
    function GetLikesByPost(postId: string): (r: seq<Like>)
      reads this
      ensures forall l :: l in r <==> l in likes && l.postId == postId
    {
      Matching(likes, LikePostId, postId)
    }

    /** `get_like_by_post_and_user`: the first like of that user on that post. */
    function GetLikeByPostAndUser(postId: string, userId: string): (r: Option<Like>)
      reads this
      ensures r.None? <==> forall l :: l in likes ==> !(l.postId == postId && l.userId == userId)
      ensures r.Some? ==> r.value in likes && r.value.postId == postId && r.value.userId == userId
    {
      FirstLike(likes, postId, userId)
    }

    /** `delete_likes_by_post`: every like of the post goes, and the others
        stay in their order. */
    method DeleteLikesByPost(postId: string)
      requires Valid()
      modifies this
      ensures Valid()
      ensures likes == Without(old(likes), LikePostId, postId)
    {
      var targets := GetLikesByPost(postId);
      ghost var l0 := likes;
      RemoveKeysNone(l0, LikeKey);
      KeysOfEmpty(LikeKey);
      for i := 0 to |targets|
        invariant Valid()
        invariant likes == RemoveKeys(l0, LikeKey, KeysOf(targets[..i], LikeKey))
      {
        KeysOfPrefix(targets, LikeKey, i);
        RemoveStep(l0, LikeKey, KeysOf(targets[..i], LikeKey), targets[i].likeId);
        DeleteStlLike(targets[i].likeId);
      }
      KeysOfWhole(targets, LikeKey);
      RemoveTargets(l0, LikeKey, targets, LikePostId, postId);
    }
  }

  /** The first like in scan order with that post and user. */
  function FirstLike(likes: seq<Like>, postId: string, userId: string): (r: Option<Like>)
    ensures r.None? <==> forall l :: l in likes ==> !(l.postId == postId && l.userId == userId)
    ensures r.Some? ==> r.value in likes && r.value.postId == postId && r.value.userId == userId
    ensures r.Some? ==> exists i :: (0 <= i < |likes| && likes[i] == r.value &&
      forall j :: 0 <= j < i ==> !(likes[j].postId == postId && likes[j].userId == userId))
    decreases |likes|
  {
    if likes == [] then None
    else if likes[0].postId == postId && likes[0].userId == userId then Some(likes[0])
    else
      assert forall l :: l in likes ==> l == likes[0] || l in likes[1..];
      var r := FirstLike(likes[1..], postId, userId);
      assert r.Some? ==> exists i :: (0 <= i < |likes| && likes[i] == r.value &&
        forall j :: 0 <= j < i ==> !(likes[j].postId == postId && likes[j].userId == userId)) by {
        if r.Some? {
          var i :| 0 <= i < |likes[1..]| && likes[1..][i] == r.value &&
            forall j :: 0 <= j < i ==> !(likes[1..][j].postId == postId && likes[1..][j].userId == userId);
          assert likes[i + 1] == r.value;
          forall j | 0 <= j < i + 1 ensures !(likes[j].postId == postId && likes[j].userId == userId) {
            if j > 0 {
              assert likes[j] == likes[1..][j - 1];
            }
          }
        }
      }
      r
  }

  // ----- update_stl_post -----

  /** The arguments of `update_stl_post` besides the key. */
  datatype PostUpdate = PostUpdate(
    title: string, content: string, updatedAt: string,
    stlFilename: Option<string>, stlFilePath: Option<string>,
    youtubeUrl: Option<string>, youtubeId: Option<string>, youtubeEmbedUrl: Option<string>,
    imageFilePath: Option<string>)

  /** An attribute set only when the argument is truthy. */
  function SetIfTruthy(current: Option<string>, arg: Option<string>): Option<string> {
    if Truthy(arg) then arg else current
  }

  /** An attribute set whenever the argument is not None. */
  function SetIfGiven(current: Option<string>, arg: Option<string>): Option<string> {
    if arg.Some? then arg else current
  }

  /** The `SET` expression applied to an item. */
  function Updated(p: StlPost, u: PostUpdate): StlPost {
    p.(title := Some(u.title), content := Some(u.content), updatedAt := Some(u.updatedAt),
       stlFilename := SetIfTruthy(p.stlFilename, u.stlFilename),
       stlFilePath := SetIfTruthy(p.stlFilePath, u.stlFilePath),
       youtubeUrl := SetIfGiven(p.youtubeUrl, u.youtubeUrl),
       youtubeId := SetIfGiven(p.youtubeId, u.youtubeId),
       youtubeEmbedUrl := SetIfGiven(p.youtubeEmbedUrl, u.youtubeEmbedUrl),
       imageFilePath := SetIfGiven(p.imageFilePath, u.imageFilePath))
  }

  /** An item holding only its key, which `update_item` starts from when the key is new. */
  function Blank(postId: string): StlPost {
    StlPost(postId, None, None, None, None, None, None, None, None, None, None, None, None, None)
  }

  /** Title, content and `updated_at` are always set; the STL attributes only
      for truthy arguments; the YouTube and image attributes for any argument
      that is not None, so "" overwrites; nothing else changes (the glTF path
      included). */
  lemma UpdatedSpec(p: StlPost, u: PostUpdate)
    ensures var q := Updated(p, u);
      && q.postId == p.postId && q.userId == p.userId
      && q.createdAt == p.createdAt && q.createdAtTs == p.createdAtTs && q.gltfFilePath == p.gltfFilePath
      && q.title == Some(u.title) && q.content == Some(u.content) && q.updatedAt == Some(u.updatedAt)
      && q.stlFilename == (if Truthy(u.stlFilename) then u.stlFilename else p.stlFilename)
      && q.stlFilePath == (if Truthy(u.stlFilePath) then u.stlFilePath else p.stlFilePath)
      && (u.youtubeUrl.Some? ==> q.youtubeUrl == u.youtubeUrl) && (u.youtubeUrl.None? ==> q.youtubeUrl == p.youtubeUrl)
      && (u.youtubeId.Some? ==> q.youtubeId == u.youtubeId) && (u.youtubeId.None? ==> q.youtubeId == p.youtubeId)
      && (u.youtubeEmbedUrl.Some? ==> q.youtubeEmbedUrl == u.youtubeEmbedUrl)
      && (u.youtubeEmbedUrl.None? ==> q.youtubeEmbedUrl == p.youtubeEmbedUrl)
      && (u.imageFilePath.Some? ==> q.imageFilePath == u.imageFilePath)
      && (u.imageFilePath.None? ==> q.imageFilePath == p.imageFilePath)
  {
  }

  /** Applying the same update twice is applying it once. */
  lemma UpdatedIdempotent(p: StlPost, u: PostUpdate)
    ensures Updated(Updated(p, u), u) == Updated(p, u)
  {
  }

  /** `update_stl_post` on the posts table: the item with that key is updated
      in place, and a missing key makes a new item. */
  method UpdateStlPost(table: PostsTable, postId: string, u: PostUpdate)
    requires table.Valid()
    modifies table
    ensures table.Valid()
    ensures HasKey(old(table.posts), PostKey, postId) ==>
      && |table.posts| == |old(table.posts)|
      && forall i :: 0 <= i < |table.posts| ==>
        table.posts[i] == if old(table.posts)[i].postId == postId then Updated(old(table.posts)[i], u) else old(table.posts)[i]
    ensures !HasKey(old(table.posts), PostKey, postId) ==> table.posts == old(table.posts) + [Updated(Blank(postId), u)]
  {
    var current := table.GetStlPostById(postId);
    var item := Updated(if current.Some? then current.value else Blank(postId), u);
    label before:
    table.posts := Put(table.posts, PostKey, item);
    if current.Some? {
      forall i | 0 <= i < |table.posts|
        ensures table.posts[i] == if old(table.posts)[i].postId == postId then Updated(old(table.posts)[i], u) else old(table.posts)[i]
      {
        if old(table.posts)[i].postId == postId {
          SameKeySameItem(old(table.posts), PostKey, old(table.posts)[i], current.value);
        }
      }
    }
  }
}
