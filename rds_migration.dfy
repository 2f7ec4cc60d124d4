/** `rds_dynamo.py`: the one-off copy of the STL board from MySQL into
    DynamoDB. Every row gets a fresh id; comments and likes are re-pointed
    at the new post ids through the mappings the earlier loops fill. */
module RdsMigration {
  import opened Wrappers
  import opened Text

  /** A `datetime` as the script writes it: `isoformat()` and `timestamp()`. */
  datatype Moment = Moment(iso: string, stamp: int)

  datatype RdsPost = RdsPost(
    id: int, title: Option<string>, content: Option<string>, userId: int,
    stlFilename: Option<string>, gltfFilePath: Option<string>, createdAt: Option<Moment>)

  datatype RdsComment = RdsComment(
    id: int, postId: int, userId: int, content: Option<string>,
    parentCommentId: Option<int>, createdAt: Option<Moment>)

  datatype RdsLike = RdsLike(id: int, postId: int, userId: int, createdAt: Option<Moment>)

  datatype StlPostItem = StlPostItem(
    postId: string, title: string, content: string, userId: string, stlFilename: string,
    stlFilePath: string, gltfFilePath: string, createdAt: string, createdAtTs: int)

  datatype CommentItem = CommentItem(
    commentId: string, postId: string, userId: string, content: Option<string>,
    parentCommentId: string, createdAt: string, createdAtTs: int)

  datatype LikeItem = LikeItem(likeId: string, postId: string, userId: string, createdAt: string)

  /** `x or default`. */
  function Or(x: Option<string>, default: string): string {
    if x.Some? && x.value != "" then x.value else default
  }

  /** `created_at if created_at else datetime.utcnow()`. */
  function When(createdAt: Option<Moment>, now: Moment): Moment {
    createdAt.GetOr(now)
  }

  /** The item written for a post under its new id. */
  function PostItem(p: RdsPost, newId: string, now: Moment): (r: StlPostItem)
    ensures r.postId == newId && r.userId == IntToString(p.userId)
    ensures r.title == (if p.title.None? || p.title.value == "" then "Untitled" else p.title.value)
    ensures r.content == p.content.GetOr("")
    ensures r.stlFilePath == r.gltfFilePath == p.gltfFilePath.GetOr("")
    ensures r.createdAt == When(p.createdAt, now).iso && r.createdAtTs == When(p.createdAt, now).stamp
  {
    var t := When(p.createdAt, now);
    StlPostItem(newId, Or(p.title, "Untitled"), Or(p.content, ""), IntToString(p.userId),
      Or(p.stlFilename, ""), Or(p.gltfFilePath, ""), Or(p.gltfFilePath, ""), t.iso, t.stamp)
  }

  /** `if not mapping.get(id)`: the post is missing or mapped to "". */
  predicate Mapped(m: map<int, string>, id: int) {
    id in m && m[id] != ""
  }

  /** `comment_id_mapping.get(parent, "")` when the row has a parent, else "". */
  function ParentId(c: RdsComment, commentMap: map<int, string>): (r: string)
    ensures c.parentCommentId.None? || c.parentCommentId.value == 0 ==> r == ""
    ensures c.parentCommentId.Some? && c.parentCommentId.value != 0 ==>
      r == if c.parentCommentId.value in commentMap then commentMap[c.parentCommentId.value] else ""
  {
    if c.parentCommentId.Some? && c.parentCommentId.value != 0 then
      (if c.parentCommentId.value in commentMap then commentMap[c.parentCommentId.value] else "")
    else ""
  }

  function CommentItemOf(c: RdsComment, newId: string, postId: string, commentMap: map<int, string>, now: Moment): CommentItem {
    var t := When(c.createdAt, now);
    CommentItem(newId, postId, IntToString(c.userId), c.content, ParentId(c, commentMap), t.iso, t.stamp)
  }

  function LikeItemOf(l: RdsLike, newId: string, postId: string, now: Moment): LikeItem {
    LikeItem(newId, postId, IntToString(l.userId), When(l.createdAt, now).iso)
  }

  /** `m[keys[i]] = vals[i]` for each `i` in turn. */
  function MapIds(m: map<int, string>, keys: seq<int>, vals: seq<string>): (r: map<int, string>)
    requires |keys| == |vals|
    ensures forall k :: k in r <==> k in m || k in keys
    decreases |keys|
  {
    if keys == [] then m
    else
      var n := |keys| - 1;
      assert forall k :: k in keys <==> k in keys[..n] || k == keys[n];
      MapIds(m, keys[..n], vals[..n])[keys[n] := vals[n]]
  }

  /** A key takes the value of its last occurrence. */
  lemma {:induction false} MapIdsLastWins(m: map<int, string>, keys: seq<int>, vals: seq<string>, i: nat)
    requires |keys| == |vals| && i < |keys|
    requires forall j :: i < j < |keys| ==> keys[j] != keys[i]
    ensures MapIds(m, keys, vals)[keys[i]] == vals[i]
    decreases |keys|
  {
    var n := |keys| - 1;
    var front, fvals := keys[..n], vals[..n];
    assert MapIds(m, keys, vals) == MapIds(m, front, fvals)[keys[n] := vals[n]];
    if i < n {
      assert front[i] == keys[i] && fvals[i] == vals[i];
      forall j | i < j < |front|
        ensures front[j] != front[i]
      {
        assert front[j] == keys[j];
      }
      MapIdsLastWins(m, front, fvals, i);
      assert keys[n] != keys[i];
    }
  }

  function PostId(p: RdsPost): int { p.id }

  function CommentId(c: RdsComment): int { c.id }

  /** The RDS ids of some rows, in row order. */
  function Ids<T>(rows: seq<T>, id: T -> int): (r: seq<int>)
    ensures |r| == |rows| && forall i :: 0 <= i < |rows| ==> r[i] == id(rows[i])
  {
    seq(|rows|, i requires 0 <= i < |rows| => id(rows[i]))
  }

  /** The posts the loop writes: every row whose `put_item` does not raise. */
  function PostsWritten(rows: seq<RdsPost>, ids: seq<string>, fails: set<int>, now: Moment): (r: seq<StlPostItem>)
    requires |ids| == |rows|
    ensures |r| <= |rows|
    decreases |rows|
  {
    if rows == [] then []
    else
      var n := |rows| - 1;
      PostsWritten(rows[..n], ids[..n], fails, now)
        + (if rows[n].id in fails then [] else [PostItem(rows[n], ids[n], now)])
  }

  /** The comments the loop writes: those whose post is mapped and whose
      `put_item` does not raise, with the comment mapping as it stands at
      that row (the row's own entry included). */
  function CommentsWritten(postMap: map<int, string>, commentMap: map<int, string>, rows: seq<RdsComment>,
    ids: seq<string>, fails: set<int>, now: Moment): (r: seq<CommentItem>)
    requires |ids| == |rows|
    ensures |r| <= |rows|
    decreases |rows|
  {
    if rows == [] then []
    else
      var n := |rows| - 1;
      var c := rows[n];
      var cm := MapIds(commentMap, Ids(rows, CommentId), ids);
      CommentsWritten(postMap, commentMap, rows[..n], ids[..n], fails, now)
        + (if !Mapped(postMap, c.postId) || c.id in fails then [] else [CommentItemOf(c, ids[n], postMap[c.postId], cm, now)])
  }

  function LikesWritten(postMap: map<int, string>, rows: seq<RdsLike>, ids: seq<string>, fails: set<int>, now: Moment): (r: seq<LikeItem>)
    requires |ids| == |rows|
    ensures |r| <= |rows|
    decreases |rows|
  {
    if rows == [] then []
    else
      var n := |rows| - 1;
      var l := rows[n];
      LikesWritten(postMap, rows[..n], ids[..n], fails, now)
        + (if !Mapped(postMap, l.postId) || l.id in fails then [] else [LikeItemOf(l, ids[n], postMap[l.postId], now)])
  }

  lemma Prefix<T>(s: seq<T>, i: nat)
    requires i < |s|
    ensures s[..i + 1][..i] == s[..i] && s[..i + 1][i] == s[i]
  {
  }

  lemma Whole<T>(s: seq<T>)
    ensures s[..|s|] == s
  {
  }

  lemma IdsPrefix<T>(rows: seq<T>, id: T -> int, i: nat)
    requires i <= |rows|
    ensures Ids(rows[..i], id) == Ids(rows, id)[..i]
  {
  }

  /** One more row of the post loop. */
  lemma PostsWrittenStep(rows: seq<RdsPost>, ids: seq<string>, fails: set<int>, now: Moment, i: nat)
    requires |ids| == |rows| && i < |rows|
    ensures PostsWritten(rows[..i + 1], ids[..i + 1], fails, now) == PostsWritten(rows[..i], ids[..i], fails, now)
      + (if rows[i].id in fails then [] else [PostItem(rows[i], ids[i], now)])
  {
    Prefix(rows, i);
    Prefix(ids, i);
  }

  /** One more row of the like loop. */
  lemma LikesWrittenStep(postMap: map<int, string>, rows: seq<RdsLike>, ids: seq<string>, fails: set<int>, now: Moment, i: nat)
    requires |ids| == |rows| && i < |rows|
    ensures LikesWritten(postMap, rows[..i + 1], ids[..i + 1], fails, now) == LikesWritten(postMap, rows[..i], ids[..i], fails, now)
      + (if !Mapped(postMap, rows[i].postId) || rows[i].id in fails then [] else [LikeItemOf(rows[i], ids[i], postMap[rows[i].postId], now)])
  {
    Prefix(rows, i);
    Prefix(ids, i);
  }

  /** The script's state: the two module-level mappings and the three
      DynamoDB tables, each a sequence of items in write order. */
  class Migration {
    var postIdMapping: map<int, string>
    var commentIdMapping: map<int, string>
    var posts: seq<StlPostItem>
    var comments: seq<CommentItem>
    var likes: seq<LikeItem>

    constructor(posts: seq<StlPostItem>, comments: seq<CommentItem>, likes: seq<LikeItem>)
      ensures postIdMapping == map[] && commentIdMapping == map[]
      ensures this.posts == posts && this.comments == comments && this.likes == likes
    {
      postIdMapping := map[];
      commentIdMapping := map[];
      this.posts := posts;
      this.comments := comments;
      this.likes := likes;
    }

    /** `migrate_stl_posts`; `ids` are the fresh `uuid4` values drawn for the
        rows in turn, and the rows whose id is in `fails` have a `put_item`
        that raises; the loop goes on after it. */
    method MigrateStlPosts(rows: seq<RdsPost>, ids: seq<string>, fails: set<int>, now: Moment)
      requires |ids| == |rows|
      modifies this
      ensures postIdMapping == MapIds(old(postIdMapping), Ids(rows, PostId), ids)
      ensures posts == old(posts) + PostsWritten(rows, ids, fails, now)
      ensures commentIdMapping == old(commentIdMapping) && comments == old(comments) && likes == old(likes)
    {
      var m0 := postIdMapping;
      var p0 := posts;
      for i := 0 to |rows|
        invariant postIdMapping == MapIds(m0, Ids(rows, PostId)[..i], ids[..i])
        invariant posts == p0 + PostsWritten(rows[..i], ids[..i], fails, now)
        invariant commentIdMapping == old(commentIdMapping) && comments == old(comments) && likes == old(likes)
      {
        Prefix(ids, i);
        Prefix(Ids(rows, PostId), i);
        PostsWrittenStep(rows, ids, fails, now, i);
        var post := rows[i];
        postIdMapping := postIdMapping[post.id := ids[i]];
        if post.id !in fails {
          posts := posts + [PostItem(post, ids[i], now)];
        }
      }
      Whole(rows);
      Whole(ids);
      Whole(Ids(rows, PostId));
    }

    /** `migrate_stl_comments`, with the same conventions. */
    method MigrateStlComments(rows: seq<RdsComment>, ids: seq<string>, fails: set<int>, now: Moment)
      requires |ids| == |rows|
      modifies this
      ensures commentIdMapping == MapIds(old(commentIdMapping), Ids(rows, CommentId), ids)
      ensures comments == old(comments) + CommentsWritten(postIdMapping, old(commentIdMapping), rows, ids, fails, now)
      ensures postIdMapping == old(postIdMapping) && posts == old(posts) && likes == old(likes)
    {
      var c0 := commentIdMapping;
      var w0 := comments;
      for i := 0 to |rows|
        invariant commentIdMapping == MapIds(c0, Ids(rows, CommentId)[..i], ids[..i])
        invariant comments == w0 + CommentsWritten(postIdMapping, c0, rows[..i], ids[..i], fails, now)
        invariant postIdMapping == old(postIdMapping) && posts == old(posts) && likes == old(likes)
      {
        Prefix(rows, i);
        Prefix(ids, i);
        Prefix(Ids(rows, CommentId), i);
        IdsPrefix(rows, CommentId, i + 1);
        var comment := rows[i];
        commentIdMapping := commentIdMapping[comment.id := ids[i]];
        if Mapped(postIdMapping, comment.postId) && comment.id !in fails {
          var parent := ParentId(comment, commentIdMapping);
          var t := When(comment.createdAt, now);
          comments := comments + [CommentItem(ids[i], postIdMapping[comment.postId], IntToString(comment.userId),
            comment.content, parent, t.iso, t.stamp)];
        }
      }
      Whole(rows);
      Whole(ids);
      Whole(Ids(rows, CommentId));
    }

    /** `migrate_stl_likes`, with the same conventions. */
    method MigrateStlLikes(rows: seq<RdsLike>, ids: seq<string>, fails: set<int>, now: Moment)
      requires |ids| == |rows|
      modifies this
      ensures likes == old(likes) + LikesWritten(postIdMapping, rows, ids, fails, now)
      ensures postIdMapping == old(postIdMapping) && commentIdMapping == old(commentIdMapping)
      ensures posts == old(posts) && comments == old(comments)
    {
      var l0 := likes;
      for i := 0 to |rows|
        invariant likes == l0 + LikesWritten(postIdMapping, rows[..i], ids[..i], fails, now)
        invariant postIdMapping == old(postIdMapping) && commentIdMapping == old(commentIdMapping)
        invariant posts == old(posts) && comments == old(comments)
      {
        LikesWrittenStep(postIdMapping, rows, ids, fails, now, i);
        var like := rows[i];
        if Mapped(postIdMapping, like.postId) && like.id !in fails {
          likes := likes + [LikeItemOf(like, ids[i], postIdMapping[like.postId], now)];
        }
      }
      Whole(rows);
      Whole(ids);
    }

    /** `main`: posts, then comments, then likes, so comments and likes see
        the mapping of every post of this run. Each table has its own ids and
        its own failing writes. */
    method Run(postRows: seq<RdsPost>, postNewIds: seq<string>, commentRows: seq<RdsComment>,
      commentNewIds: seq<string>, likeRows: seq<RdsLike>, likeNewIds: seq<string>,
      postFails: set<int>, commentFails: set<int>, likeFails: set<int>, now: Moment)
      requires |postNewIds| == |postRows| && |commentNewIds| == |commentRows| && |likeNewIds| == |likeRows|
      modifies this
      ensures postIdMapping == MapIds(old(postIdMapping), Ids(postRows, PostId), postNewIds)
      ensures commentIdMapping == MapIds(old(commentIdMapping), Ids(commentRows, CommentId), commentNewIds)
      ensures posts == old(posts) + PostsWritten(postRows, postNewIds, postFails, now)
      ensures comments == old(comments) + CommentsWritten(postIdMapping, old(commentIdMapping), commentRows, commentNewIds, commentFails, now)
      ensures likes == old(likes) + LikesWritten(postIdMapping, likeRows, likeNewIds, likeFails, now)
    {
      MigrateStlPosts(postRows, postNewIds, postFails, now);
      MigrateStlComments(commentRows, commentNewIds, commentFails, now);
      MigrateStlLikes(likeRows, likeNewIds, likeFails, now);
    }
  }

  /** Every post row gets its fresh id in the mapping, whether or not its
      write then fails (for a repeated RDS id, the last row's). */
  lemma PostMappingRecordsEveryRow(m: map<int, string>, rows: seq<RdsPost>, ids: seq<string>, i: nat)
    requires |ids| == |rows| && i < |rows|
    requires forall j :: i < j < |rows| ==> rows[j].id != rows[i].id
    ensures rows[i].id in MapIds(m, Ids(rows, PostId), ids) && MapIds(m, Ids(rows, PostId), ids)[rows[i].id] == ids[i]
  {
    MapIdsLastWins(m, Ids(rows, PostId), ids, i);
  }

  /** The written posts are exactly the rows whose write does not fail,
      each with the row's own fresh id. */
  lemma PostsWrittenAreRows(rows: seq<RdsPost>, ids: seq<string>, fails: set<int>, now: Moment)
    requires |ids| == |rows|
    ensures forall p :: p in PostsWritten(rows, ids, fails, now) ==>
      exists i :: 0 <= i < |rows| && rows[i].id !in fails && p == PostItem(rows[i], ids[i], now)
    ensures forall i :: 0 <= i < |rows| && rows[i].id !in fails ==> PostItem(rows[i], ids[i], now) in PostsWritten(rows, ids, fails, now)
  {
    PostsWrittenSound(rows, ids, fails, now);
    PostsWrittenComplete(rows, ids, fails, now);
  }

  /** Every written post is the item of a row whose write does not fail. */
  lemma {:induction false} PostsWrittenSound(rows: seq<RdsPost>, ids: seq<string>, fails: set<int>, now: Moment)
    requires |ids| == |rows|
    ensures forall p :: p in PostsWritten(rows, ids, fails, now) ==>
      exists i :: 0 <= i < |rows| && rows[i].id !in fails && p == PostItem(rows[i], ids[i], now)
    decreases |rows|
  {
    if rows != [] {
      var n := |rows| - 1;
      PostsWrittenSound(rows[..n], ids[..n], fails, now);
      var pre := PostsWritten(rows[..n], ids[..n], fails, now);
      forall p | p in PostsWritten(rows, ids, fails, now)
        ensures exists i :: 0 <= i < |rows| && rows[i].id !in fails && p == PostItem(rows[i], ids[i], now)
      {
        if p in pre {
          var i :| 0 <= i < n && rows[..n][i].id !in fails && p == PostItem(rows[..n][i], ids[..n][i], now);
          assert rows[..n][i] == rows[i] && ids[..n][i] == ids[i];
        } else {
          assert p == PostItem(rows[n], ids[n], now);
        }
      }
    }
  }

  /** Every row whose write does not fail has its post item written. */
  lemma {:induction false} PostsWrittenComplete(rows: seq<RdsPost>, ids: seq<string>, fails: set<int>, now: Moment)
    requires |ids| == |rows|
    ensures forall i :: 0 <= i < |rows| && rows[i].id !in fails ==> PostItem(rows[i], ids[i], now) in PostsWritten(rows, ids, fails, now)
    decreases |rows|
  {
    if rows != [] {
      var n := |rows| - 1;
      PostsWrittenComplete(rows[..n], ids[..n], fails, now);
      var pre := PostsWritten(rows[..n], ids[..n], fails, now);
      var last := if rows[n].id in fails then [] else [PostItem(rows[n], ids[n], now)];
      assert PostsWritten(rows, ids, fails, now) == pre + last;
      forall i | 0 <= i < |rows| && rows[i].id !in fails
        ensures PostItem(rows[i], ids[i], now) in pre + last
      {
        if i < n {
          assert rows[..n][i] == rows[i] && ids[..n][i] == ids[i];
          assert PostItem(rows[i], ids[i], now) in pre;
        } else {
          assert last == [PostItem(rows[i], ids[i], now)];
        }
      }
    }
  }

  /** Every written comment and like points at a post id of the mapping: a
      row whose post was not migrated is never written. */
  lemma {:induction false} CommentsPointAtMappedPosts(postMap: map<int, string>, commentMap: map<int, string>,
    rows: seq<RdsComment>, ids: seq<string>, fails: set<int>, now: Moment)
    requires |ids| == |rows|
    ensures forall c :: c in CommentsWritten(postMap, commentMap, rows, ids, fails, now) ==>
      exists k :: Mapped(postMap, k) && postMap[k] == c.postId
    decreases |rows|
  {
    if rows != [] {
      var n := |rows| - 1;
      CommentsPointAtMappedPosts(postMap, commentMap, rows[..n], ids[..n], fails, now);
    }
  }

  /** The written likes are exactly the rows whose post is mapped and whose
      write does not fail, each under its own fresh id and pointing at its
      post's new id. */
  lemma LikesWrittenAreMappedRows(postMap: map<int, string>, rows: seq<RdsLike>,
    ids: seq<string>, fails: set<int>, now: Moment)
    requires |ids| == |rows|
    ensures forall l :: l in LikesWritten(postMap, rows, ids, fails, now) ==>
      exists i :: 0 <= i < |rows| && Mapped(postMap, rows[i].postId) && rows[i].id !in fails
        && l == LikeItemOf(rows[i], ids[i], postMap[rows[i].postId], now)
    ensures forall i :: 0 <= i < |rows| && Mapped(postMap, rows[i].postId) && rows[i].id !in fails ==>
      LikeItemOf(rows[i], ids[i], postMap[rows[i].postId], now) in LikesWritten(postMap, rows, ids, fails, now)
  {
    LikesWrittenSound(postMap, rows, ids, fails, now);
    LikesWrittenComplete(postMap, rows, ids, fails, now);
  }

  /** Every written like comes from a row whose post is mapped and whose write does not fail. */
  lemma {:induction false} LikesWrittenSound(postMap: map<int, string>, rows: seq<RdsLike>,
    ids: seq<string>, fails: set<int>, now: Moment)
    requires |ids| == |rows|
    ensures forall l :: l in LikesWritten(postMap, rows, ids, fails, now) ==>
      exists i :: 0 <= i < |rows| && Mapped(postMap, rows[i].postId) && rows[i].id !in fails
        && l == LikeItemOf(rows[i], ids[i], postMap[rows[i].postId], now)
    decreases |rows|
  {
    if rows != [] {
      var n := |rows| - 1;
      LikesWrittenSound(postMap, rows[..n], ids[..n], fails, now);
      var pre := LikesWritten(postMap, rows[..n], ids[..n], fails, now);
      forall l | l in LikesWritten(postMap, rows, ids, fails, now)
        ensures exists i :: (0 <= i < |rows| && Mapped(postMap, rows[i].postId) && rows[i].id !in fails
          && l == LikeItemOf(rows[i], ids[i], postMap[rows[i].postId], now))
      {
        if l in pre {
          var i :| 0 <= i < n && Mapped(postMap, rows[..n][i].postId) && rows[..n][i].id !in fails
            && l == LikeItemOf(rows[..n][i], ids[..n][i], postMap[rows[..n][i].postId], now);
          assert rows[..n][i] == rows[i] && ids[..n][i] == ids[i];
        } else {
          assert l == LikeItemOf(rows[n], ids[n], postMap[rows[n].postId], now);
        }
      }
    }
  }

  /** Every row whose post is mapped and whose write does not fail is written. */
  lemma {:induction false} LikesWrittenComplete(postMap: map<int, string>, rows: seq<RdsLike>,
    ids: seq<string>, fails: set<int>, now: Moment)
    requires |ids| == |rows|
    ensures forall i :: 0 <= i < |rows| && Mapped(postMap, rows[i].postId) && rows[i].id !in fails ==>
      LikeItemOf(rows[i], ids[i], postMap[rows[i].postId], now) in LikesWritten(postMap, rows, ids, fails, now)
    decreases |rows|
  {
    if rows != [] {
      var n := |rows| - 1;
      LikesWrittenComplete(postMap, rows[..n], ids[..n], fails, now);
      forall i | 0 <= i < n ensures rows[..n][i] == rows[i] && ids[..n][i] == ids[i] {
      }
    }
  }

  /** A comment whose post is unmapped is skipped, yet its own id was
      already recorded in the comment mapping. */
  lemma UnmappedCommentSkipped(postMap: map<int, string>, commentMap: map<int, string>,
    rows: seq<RdsComment>, ids: seq<string>, fails: set<int>, now: Moment)
    requires |ids| == |rows| && rows != [] && !Mapped(postMap, rows[|rows| - 1].postId)
    ensures var n := |rows| - 1;
      && CommentsWritten(postMap, commentMap, rows, ids, fails, now) == CommentsWritten(postMap, commentMap, rows[..n], ids[..n], fails, now)
      && MapIds(commentMap, Ids(rows, CommentId), ids)[rows[n].id] == ids[n]
  {
  }
}
