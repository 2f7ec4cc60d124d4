/** `fix_dynamodb.py`: copy the STL file path of each RDS post onto the
    DynamoDB post with the same title, counting repaired and skipped posts. */
module FixPaths {
  import opened Wrappers

  /** A row of `SELECT id, title, stl_filename, stl_file_path FROM stl_posts`. */
  datatype RdsRow = RdsRow(id: int, title: Option<string>, stlFilename: Option<string>, stlFilePath: Option<string>)

  /** The attributes of a `hoero-stl-posts` item this script reads or writes;
      `other` stands for everything else, which it never touches. */
  datatype Post = Post(
    postId: string,
    title: Option<string>,
    stlFilePath: Option<string>,
    gltfFilePath: Option<string>,
    stlFilename: Option<string>,
    other: map<string, string>)

  /** `{post['title']: post for post in rds_posts}`. */
  function IndexByTitle(rows: seq<RdsRow>): map<Option<string>, RdsRow>
    decreases |rows|
  {
    if rows == [] then map[]
    else IndexByTitle(rows[..|rows| - 1])[rows[|rows| - 1].title := rows[|rows| - 1]]
  }

  predicate HasTitle(rows: seq<RdsRow>, t: Option<string>) {
    exists i :: 0 <= i < |rows| && rows[i].title == t
  }

  lemma HasTitleSnoc(rows: seq<RdsRow>, t: Option<string>)
    requires rows != []
    ensures HasTitle(rows, t) <==> HasTitle(rows[..|rows| - 1], t) || rows[|rows| - 1].title == t
  {
    var init := rows[..|rows| - 1];
    if HasTitle(init, t) {
      var i :| 0 <= i < |init| && init[i].title == t;
      assert rows[i].title == t;
    }
    if HasTitle(rows, t) && rows[|rows| - 1].title != t {
      var i :| 0 <= i < |rows| && rows[i].title == t;
      assert init[i].title == t;
    }
  }

  /** The index has exactly the titles of the rows. */
  lemma {:induction false} IndexByTitleDomain(rows: seq<RdsRow>)
    ensures forall t :: t in IndexByTitle(rows) <==> HasTitle(rows, t)
    decreases |rows|
  {
    if rows != [] {
      IndexByTitleDomain(rows[..|rows| - 1]);
      forall t ensures t in IndexByTitle(rows) <==> HasTitle(rows, t) {
        HasTitleSnoc(rows, t);
      }
    }
  }

  /** For duplicate titles the last row wins. */
  lemma {:induction false} IndexByTitleLastWins(rows: seq<RdsRow>, i: nat)
    requires i < |rows|
    requires forall j :: i < j < |rows| ==> rows[j].title != rows[i].title
    ensures rows[i].title in IndexByTitle(rows) && IndexByTitle(rows)[rows[i].title] == rows[i]
    decreases |rows|
  {
    if i < |rows| - 1 {
      IndexByTitleLastWins(rows[..|rows| - 1], i);
    }
  }

  /** Python truthiness of an optional string. */
  predicate Truthy(s: Option<string>) {
    s.Some? && s.value != []
  }

  /** The RDS row a post is repaired from: the row indexed under its title
      (`''` when it has none), provided that row has a non-empty path. */
  function Source(index: map<Option<string>, RdsRow>, p: Post): (r: Option<RdsRow>)
    ensures r.Some? <==> Some(p.title.GetOr("")) in index && Truthy(index[Some(p.title.GetOr(""))].stlFilePath)
    ensures r.Some? ==> r.value == index[Some(p.title.GetOr(""))]
  {
    var key := Some(p.title.GetOr(""));
    if key in index && Truthy(index[key].stlFilePath) then Some(index[key]) else None
  }

  /** The `SET` of the update expression. */
  function SetPaths(p: Post, path: string, filename: string): (r: Post)
    ensures r.stlFilePath == r.gltfFilePath == Some(path) && r.stlFilename == Some(filename)
    ensures r.postId == p.postId && r.title == p.title && r.other == p.other
  {
    p.(stlFilePath := Some(path), gltfFilePath := Some(path), stlFilename := Some(filename))
  }

  /** Whether the loop counts the post as updated: a source row exists and
      its update did not raise. */
  predicate Updates(index: map<Option<string>, RdsRow>, p: Post, fails: set<string>) {
    Source(index, p).Some? && p.postId !in fails
  }

  /** The post after the loop has visited it. */
  function Repaired(index: map<Option<string>, RdsRow>, p: Post, fails: set<string>): (r: Post)
    ensures !Updates(index, p, fails) ==> r == p
    ensures Updates(index, p, fails) ==>
      var row := Source(index, p).value;
      r == SetPaths(p, row.stlFilePath.value, row.stlFilename.GetOr(""))
  {
    if Updates(index, p, fails) then
      var row := Source(index, p).value;
      SetPaths(p, row.stlFilePath.value, row.stlFilename.GetOr(""))
    else p
  }

  function CountUpdated(index: map<Option<string>, RdsRow>, posts: seq<Post>, fails: set<string>): (n: nat)
    ensures n <= |posts|
    decreases |posts|
  {
    if posts == [] then 0
    else CountUpdated(index, posts[..|posts| - 1], fails) + (if Updates(index, posts[|posts| - 1], fails) then 1 else 0)
  }

  predicate HasId(posts: seq<Post>, id: string) {
    exists j :: 0 <= j < |posts| && posts[j].postId == id
  }

  /** The `hoero-stl-posts` table: one item per `post_id`, in scan order. */
  class PostsTable {
    var posts: seq<Post>

    ghost predicate Valid()
      reads this
    {
      forall i, j :: 0 <= i < j < |posts| ==> posts[i].postId != posts[j].postId
    }

    constructor(initial: seq<Post>)
      ensures posts == initial
    {
      posts := initial;
    }

    /** `update_item` with the `SET` expression: the item with that key gets
        the three attributes; a missing key creates an item holding only the
        key and them; an update listed in `fails` raises and changes nothing. */
    method UpdatePaths(postId: string, path: string, filename: string, fails: set<string>) returns (ok: bool)
      requires Valid()
      modifies this
      ensures Valid()
      ensures ok <==> postId !in fails
      ensures !ok ==> posts == old(posts)
      ensures ok && HasId(old(posts), postId) ==>
        && |posts| == |old(posts)|
        && forall j :: 0 <= j < |posts| ==>
          posts[j] == if old(posts)[j].postId == postId then SetPaths(old(posts)[j], path, filename) else old(posts)[j]
      ensures ok && !HasId(old(posts), postId) ==>
        posts == old(posts) + [SetPaths(Post(postId, None, None, None, None, map[]), path, filename)]
    {
      if postId in fails {
        return false;
      }
      ok := true;
      var i := 0;
      while i < |posts|
        invariant 0 <= i <= |posts|
        invariant forall j :: 0 <= j < i ==> posts[j].postId != postId
      {
        if posts[i].postId == postId {
          posts := posts[i := SetPaths(posts[i], path, filename)];
          return;
        }
        i := i + 1;
      }
      posts := posts + [SetPaths(Post(postId, None, None, None, None, map[]), path, filename)];
    }
  }

  /** With distinct ids, updating the item with the id at `i` changes only slot `i`. */
  lemma UpdateOneSlot(before: seq<Post>, after: seq<Post>, i: nat, path: string, filename: string)
    requires i < |before| == |after|
    requires forall a, b :: 0 <= a < b < |before| ==> before[a].postId != before[b].postId
    requires forall j :: 0 <= j < |after| ==>
      after[j] == if before[j].postId == before[i].postId then SetPaths(before[j], path, filename) else before[j]
    ensures after == before[i := SetPaths(before[i], path, filename)]
  {
    forall j | 0 <= j < |after| && j != i
      ensures after[j] == before[j]
    {
      if j < i {
        assert before[j].postId != before[i].postId;
      } else {
        assert before[i].postId != before[j].postId;
      }
    }
  }

  /** One pass of the loop, on the post stored at `i`: it is repaired when
      its source row exists and the update succeeds. */
  method RepairOne(table: PostsTable, index: map<Option<string>, RdsRow>, i: nat, fails: set<string>) returns (ok: bool)
    requires table.Valid() && i < |table.posts|
    modifies table
    ensures table.Valid()
    ensures ok == Updates(index, old(table.posts)[i], fails)
    ensures table.posts == old(table.posts)[i := Repaired(index, old(table.posts)[i], fails)]
  {
    var post := table.posts[i];
    var source := Source(index, post);
    if source.Some? {
      var row := source.value;
      assert HasId(table.posts, post.postId);
      ghost var before := table.posts;
      ok := table.UpdatePaths(post.postId, row.stlFilePath.value, row.stlFilename.GetOr(""), fails);
      if ok {
        UpdateOneSlot(before, table.posts, i, row.stlFilePath.value, row.stlFilename.GetOr(""));
      } else {
        assert table.posts == before[i := before[i]];
      }
    } else {
      ok := false;
      assert table.posts == table.posts[i := post];
    }
  }

  /** The script's loop over the scanned posts. */
  method RepairAll(table: PostsTable, rows: seq<RdsRow>, fails: set<string>) returns (updated: nat, failed: nat)
    requires table.Valid()
    modifies table
    ensures table.Valid()
    ensures updated + failed == |old(table.posts)|
    ensures updated == CountUpdated(IndexByTitle(rows), old(table.posts), fails)
    ensures |table.posts| == |old(table.posts)|
    ensures forall j :: 0 <= j < |table.posts| ==>
      table.posts[j] == Repaired(IndexByTitle(rows), old(table.posts)[j], fails)
  {
    var scanned := table.posts;
    var index := IndexByTitle(rows);
    updated, failed := 0, 0;
    for i := 0 to |scanned|
      invariant table.Valid() && |table.posts| == |scanned|
      invariant forall j :: 0 <= j < i ==> table.posts[j] == Repaired(index, scanned[j], fails)
      invariant forall j :: i <= j < |scanned| ==> table.posts[j] == scanned[j]
      invariant updated + failed == i
      invariant updated == CountUpdated(index, scanned[..i], fails)
    {
      assert scanned[..i + 1][..i] == scanned[..i];
      var ok := RepairOne(table, index, i, fails);
      if ok {
        updated := updated + 1;
      } else {
        failed := failed + 1;
      }
    }
    assert scanned[..|scanned|] == scanned;
  }
}
