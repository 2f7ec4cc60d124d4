/** `views/close_stl_board.py`: YouTube id extraction, the image key rules,
    the author shown for a record, and the like, delete and edit routes over
    the STL tables. S3 calls, uploads, the clock and `uuid4` are parameters. */
module StlBoard {
  import opened Wrappers
  import opened Text
  import opened Paths
  import opened Tables
  import opened StlStore

  // ----- extract_youtube_id -----

  /** `[0-9A-Za-z_-]`. */
  predicate IdChar(c: char) {
    ('0' <= c <= '9') || ('A' <= c <= 'Z') || ('a' <= c <= 'z') || c == '_' || c == '-'
  }

  /** Eleven id characters start at `j`. */
  predicate IdAt(s: string, j: nat) {
    j + 11 <= |s| && forall k :: j <= k < j + 11 ==> IdChar(s[k])
  }

  /** A YouTube video id. */
  predicate IsVideoId(id: string) {
    |id| == 11 && forall k :: 0 <= k < 11 ==> IdChar(id[k])
  }

  /** The four patterns of `extract_youtube_id`, in the order they are tried. */
  datatype Pattern =
    | VOrSlash  // (?:v=|\/)([0-9A-Za-z_-]{11}).*
    | Embed     // (?:embed\/)([0-9A-Za-z_-]{11})
    | WatchV    // (?:watch\?v=)([0-9A-Za-z_-]{11})
    | YoutuBe   // youtu\.be\/([0-9A-Za-z_-]{11})

  /** The pattern matches at position `i` (`.*` matches anything). */
  predicate Matches(p: Pattern, s: string, i: nat) {
    match p
    case VOrSlash => (OccursAt(s, "v=", i) && IdAt(s, i + 2)) || (OccursAt(s, "/", i) && IdAt(s, i + 1))
    case Embed => OccursAt(s, "embed/", i) && IdAt(s, i + 6)
    case WatchV => OccursAt(s, "watch?v=", i) && IdAt(s, i + 8)
    case YoutuBe => OccursAt(s, "youtu.be/", i) && IdAt(s, i + 9)
  }

  /** Where group 1 starts in a match at `i`; the alternation tries `v=` first. */
  function GroupStart(p: Pattern, s: string, i: nat): (g: nat)
    requires Matches(p, s, i)
    ensures IdAt(s, g)
  {
    match p
    case VOrSlash => if OccursAt(s, "v=", i) && IdAt(s, i + 2) then i + 2 else i + 1
    case Embed => i + 6
    case WatchV => i + 8
    case YoutuBe => i + 9
  }

  /** `match.group(1)`. */
  function Group(p: Pattern, s: string, i: nat): (r: string)
    requires Matches(p, s, i)
    ensures IsVideoId(r) && OccursAt(s, r, GroupStart(p, s, i))
  {
    var g := GroupStart(p, s, i);
    s[g..g + 11]
  }

  /** `re.search`: the leftmost position from `i` on where the pattern matches. */
  function FirstMatch(p: Pattern, s: string, i: nat): (r: Option<nat>)
    ensures r.Some? ==> i <= r.value && Matches(p, s, r.value) && forall j :: i <= j < r.value ==> !Matches(p, s, j)
    ensures r.None? ==> forall j :: i <= j ==> !Matches(p, s, j)
    decreases |s| - i
  {
    if i + 11 > |s| then None
    else if Matches(p, s, i) then Some(i)
    else FirstMatch(p, s, i + 1)
  }

  /** The group of the leftmost match, if any. */
  function Search(p: Pattern, s: string): Option<string> {
    match FirstMatch(p, s, 0)
    case Some(i) => Some(Group(p, s, i))
    case None => None
  }

  /** A match of a later pattern contains a match of the first one. */
  lemma LaterPatternsSubsumed(p: Pattern, s: string, i: nat)
    requires Matches(p, s, i)
    ensures p == Embed ==> Matches(VOrSlash, s, i + 5)
    ensures p == WatchV ==> Matches(VOrSlash, s, i + 6)
    ensures p == YoutuBe ==> Matches(VOrSlash, s, i + 8)
  {
    if p == Embed {
      assert s[i + 5] == "embed/"[5];
    } else if p == WatchV {
      assert s[i + 6..i + 8] == "watch?v="[6..];
    } else if p == YoutuBe {
      assert s[i + 8] == "youtu.be/"[8];
    }
  }

  /** So when the first pattern finds nothing, neither do the others. */
  lemma OnlyFirstPatternDecides(s: string)
    requires Search(VOrSlash, s).None?
    ensures Search(Embed, s).None? && Search(WatchV, s).None? && Search(YoutuBe, s).None?
  {
    forall p: Pattern, i: nat | p != VOrSlash && Matches(p, s, i) ensures false {
      LaterPatternsSubsumed(p, s, i);
    }
  }

  /** `extract_youtube_id(url)`: "" for an empty URL or when no pattern
      matches, otherwise the id at the leftmost match of the first pattern. */
  function ExtractYoutubeId(url: string): (r: string)
    ensures r == "" <==> forall i :: !Matches(VOrSlash, url, i)
    ensures r != "" ==> IsVideoId(r) && exists j :: OccursAt(url, r, j)
    ensures r != "" ==> exists i: nat :: (Matches(VOrSlash, url, i) && r == Group(VOrSlash, url, i) &&
      forall j :: 0 <= j < i ==> !Matches(VOrSlash, url, j))
  {
    if url == "" then ""
    else match Search(VOrSlash, url)
      case Some(id) => id
      case None =>
        OnlyFirstPatternDecides(url);
        match Search(Embed, url)
        case Some(id) => id
        case None =>
          match Search(WatchV, url)
          case Some(id) => id
          case None =>
            match Search(YoutuBe, url)
            case Some(id) => id
            case None => ""
  }

  const EmbedPrefix: string := "https://www.youtube.com/embed/"

  /** `to_youtube_embed(url)`. */
  function ToYoutubeEmbed(url: string): (r: string)
    ensures r == "" <==> ExtractYoutubeId(url) == ""
    ensures r != "" ==> r == EmbedPrefix + ExtractYoutubeId(url)
  {
    var id := ExtractYoutubeId(url);
    if id != "" then EmbedPrefix + id else ""
  }

  /** No position inside the embed prefix starts a match: it has no `v`,
      and after each of its slashes at 6, 7 and 23 comes a non-id
      character within eleven places. */
  lemma NoMatchInPrefix(id: string, j: nat)
    requires IsVideoId(id) && j < 29
    ensures !Matches(VOrSlash, EmbedPrefix + id, j)
  {
    var s := EmbedPrefix + id;
    assert s[j] == EmbedPrefix[j];
    PrefixChar(j);
    if OccursAt(s, "v=", j) {
      OccursAtHead(s, "v=", j);
    } else if OccursAt(s, "/", j) {
      OccursAtHead(s, "/", j);
      if j == 6 {
        assert s[7] == EmbedPrefix[7];
      } else if j == 7 {
        assert s[11] == EmbedPrefix[11];
      } else {
        assert s[29] == EmbedPrefix[29];
      }
    }
  }

  /** The embed prefix has no `v`, and its slashes before the last one
      stand at 6, 7 and 23. */
  lemma PrefixChar(j: nat)
    requires j < 29
    ensures EmbedPrefix[j] != 'v'
    ensures EmbedPrefix[j] == '/' ==> j == 6 || j == 7 || j == 23
    ensures EmbedPrefix[7] == '/' && EmbedPrefix[11] == '.' && EmbedPrefix[29] == '/'
  {
  }

  lemma OccursAtHead(s: string, pat: string, i: nat)
    requires OccursAt(s, pat, i) && pat != []
    ensures s[i] == pat[0]
  {
    assert s[i..i + |pat|][0] == s[i];
  }

  /** Extracting from an embed URL gives back its id. */
  lemma ExtractFromEmbed(id: string)
    requires IsVideoId(id)
    ensures ExtractYoutubeId(EmbedPrefix + id) == id
  {
    var s := EmbedPrefix + id;
    forall j: nat | j < 29 ensures !Matches(VOrSlash, s, j) {
      NoMatchInPrefix(id, j);
    }
    assert s[29] == '/' && s[30..41] == id;
    assert Matches(VOrSlash, s, 29);
    assert GroupStart(VOrSlash, s, 29) == 30;
  }

  /** The id survives the trip through the embed URL, which the display
      fallback `youtube_id or extract(youtube_url) or extract(embed)` relies on. */
  lemma EmbedRoundTrip(url: string)
    ensures ExtractYoutubeId(ToYoutubeEmbed(url)) == ExtractYoutubeId(url)
  {
    if ExtractYoutubeId(url) != "" {
      ExtractFromEmbed(ExtractYoutubeId(url));
    }
  }

  /** Converting an embed URL again changes nothing. */
  lemma ToYoutubeEmbedIdempotent(url: string)
    ensures ToYoutubeEmbed(ToYoutubeEmbed(url)) == ToYoutubeEmbed(url)
  {
    EmbedRoundTrip(url);
  }

  // ----- upload_resized_image_to_s3 -----

  datatype ImageFormat = Jpeg | Png | Webp

  /** The accepted extensions, after `lower()`. */
  function FormatOf(ext: string): (r: Option<ImageFormat>)
    ensures r.Some? <==> ext in [".jpg", ".jpeg", ".png", ".webp"]
  {
    if ext == ".jpg" || ext == ".jpeg" then Some(Jpeg)
    else if ext == ".png" then Some(Png)
    else if ext == ".webp" then Some(Webp)
    else None
  }

  function KeySuffix(f: ImageFormat): string {
    match f
    case Jpeg => ".jpg"
    case Png => ".png"
    case Webp => ".webp"
  }

  function ContentType(f: ImageFormat): string {
    match f
    case Jpeg => "image/jpeg"
    case Png => "image/png"
    case Webp => "image/webp"
  }

  /** The S3 key and content type for an image whose `secure_filename` is
      `original`, at the `%Y%m%d%H%M%S` time `timestamp`; any other extension
      raises ValueError. */
  function ImageKey(original: string, timestamp: string, prefix: string): (r: Result<(string, string), string>)
    ensures r.Err? <==> Lower(SplitExt(original).1) !in [".jpg", ".jpeg", ".png", ".webp"]
    ensures r.Ok? ==> StartsWith(r.value.0, prefix + timestamp + "_" + SplitExt(original).0)
    ensures r.Ok? ==> var ext := Lower(SplitExt(original).1);
      && (EndsWith(r.value.0, ".jpg") <==> ext == ".jpg" || ext == ".jpeg")
      && (EndsWith(r.value.0, ".png") <==> ext == ".png")
      && (EndsWith(r.value.0, ".webp") <==> ext == ".webp")
      && (r.value.1 == "image/jpeg" <==> ext == ".jpg" || ext == ".jpeg")
  {
    match FormatOf(Lower(SplitExt(original).1))
    case None => Err("ValueError")
    case Some(f) =>
      var head := prefix + timestamp + "_" + SplitExt(original).0;
      SuffixDecides(head, f);
      Ok((head + KeySuffix(f), ContentType(f)))
  }

  /** The suffix alone tells the three kinds of key apart. */
  lemma SuffixDecides(head: string, f: ImageFormat)
    ensures var key := head + KeySuffix(f);
      && StartsWith(key, head)
      && (EndsWith(key, ".jpg") <==> f == Jpeg)
      && (EndsWith(key, ".png") <==> f == Png)
      && (EndsWith(key, ".webp") <==> f == Webp)
  {
    var key := head + KeySuffix(f);
    assert key[..|head|] == head;
    assert key[|key| - |KeySuffix(f)|..] == KeySuffix(f);
    assert key[|key| - 4..] == KeySuffix(f)[|KeySuffix(f)| - 4..];
  }

  /** The glTF name and key the board stores for an uploaded STL file. */
  function GlbName(original: string, timestamp: string): string {
    timestamp + "_" + SplitExt(original).0 + ".glb"
  }

  function GlbKey(original: string, timestamp: string): (r: string)
    ensures StartsWith(r, "STL-board/") && EndsWith(r, GlbName(original, timestamp))
  {
    var r := "STL-board/" + GlbName(original, timestamp);
    assert r[..10] == "STL-board/";
    assert r[|r| - |GlbName(original, timestamp)|..] == GlbName(original, timestamp);
    r
  }

  // ----- resolve_author -----

  datatype Author = Author(id: string, displayName: string, email: string)

  /** What `users_table.get_item` gives: it raises, or returns the item
      (an empty map when there is none). */
  datatype UserFetch = FetchRaised | FetchItem(item: map<string, string>)

  function Get(item: map<string, string>, k: string, default: string): string {
    if k in item then item[k] else default
  }

  /** `resolve_author(user_id)`; `hasTable` says whether the users table is
      configured and `fetch` is its `get_item`. */
  function ResolveAuthor(userId: Option<string>, hasTable: bool, fetch: string -> UserFetch): (r: Author)
    ensures r.id == userId.GetOr("")
    ensures var uid := userId.GetOr("");
      if hasTable && uid != "" && fetch(uid).FetchItem? && fetch(uid).item != map[] then
        r.displayName == Get(fetch(uid).item, "display_name", "Unknown User") && r.email == Get(fetch(uid).item, "email", "")
      else
        r.displayName == "Unknown User" && ('@' in uid ==> r.email == uid) && ('@' !in uid ==> r.email == "")
  {
    var uid := userId.GetOr("");
    var default := Author(uid, "Unknown User", if '@' in uid then uid else "");
    if hasTable && uid != "" then
      match fetch(uid)
      case FetchRaised => default
      case FetchItem(item) =>
        if item == map[] then default
        else Author(uid, Get(item, "display_name", "Unknown User"), Get(item, "email", ""))
    else default
  }

  /** Without a user record the shown email is empty or an address. */
  lemma DefaultAuthorEmail(userId: Option<string>, hasTable: bool, fetch: string -> UserFetch)
    requires !hasTable || userId.GetOr("") == "" || fetch(userId.GetOr("")).FetchRaised?
    ensures var r := ResolveAuthor(userId, hasTable, fetch);
      r.displayName == "Unknown User" && (r.email == "" || '@' in r.email)
  {
  }

  // ----- like_post, delete_post, edit_post -----

  datatype Response =
    | NotFound    // abort(404)
    | Forbidden   // abort(403)
    | Liked
    | Unliked
    | Deleted
    | Failed      // an error flashed, nothing written
    | Rejected    // a wrong file type, redirected back
    | Shown       // the form rendered, nothing written
    | Edited

  predicate HasLike(likes: seq<Like>, postId: string, userId: string) {
    exists i :: 0 <= i < |likes| && likes[i].postId == postId && likes[i].userId == userId
  }

  /** At most one like per post and user, which the toggle keeps. */
  predicate UniqueLikes(likes: seq<Like>) {
    forall i, j :: 0 <= i < j < |likes| ==> !(likes[i].postId == likes[j].postId && likes[i].userId == likes[j].userId)
  }

  lemma {:induction false} UniqueLikesRemove(s: seq<Like>, k: string)
    requires UniqueLikes(s)
    ensures UniqueLikes(Remove(s, LikeKey, k))
    decreases |s|
  {
    if s != [] {
      UniqueLikesRemove(s[1..], k);
      var t := Remove(s[1..], LikeKey, k);
      var r := Remove(s, LikeKey, k);
      if s[0].likeId != k {
        assert r == [s[0]] + t;
        forall j | 0 <= j < |t| ensures !(s[0].postId == t[j].postId && s[0].userId == t[j].userId) {
          assert t[j] in s[1..];
          var m :| 0 <= m < |s[1..]| && s[1..][m] == t[j];
          assert s[m + 1] == t[j];
        }
        forall i, j | 0 <= i < j < |r| ensures !(r[i].postId == r[j].postId && r[i].userId == r[j].userId) {
          assert r[j] == t[j - 1];
          if i > 0 {
            assert r[i] == t[i - 1];
          }
        }
      }
    }
  }

  /** `like_post`: a missing post is 404; otherwise the user's like is taken
      back if there is one, and made (under the fresh id `likeId`) if not. */
  method LikePost(posts: PostsTable, likes: LikesTable, postId: string, userId: string, likeId: string, now: string)
    returns (r: Response)
    requires likes.Valid() && !HasKey(likes.likes, LikeKey, likeId)
    modifies likes
    ensures likes.Valid()
    ensures r == NotFound <==> !HasKey(posts.posts, PostKey, postId)
    ensures r == NotFound ==> likes.likes == old(likes.likes)
    ensures r != NotFound ==> (r == Unliked <==> HasLike(old(likes.likes), postId, userId)) && (r == Unliked || r == Liked)
    ensures r == Liked ==> likes.likes == old(likes.likes) + [Like(likeId, postId, userId, now)]
    ensures r == Unliked ==>
      likes.likes == Remove(old(likes.likes), LikeKey, FirstLike(old(likes.likes), postId, userId).value.likeId)
    ensures r != NotFound && UniqueLikes(old(likes.likes)) ==>
      UniqueLikes(likes.likes) && (HasLike(likes.likes, postId, userId) <==> !HasLike(old(likes.likes), postId, userId))
  {
    var post := posts.GetStlPostById(postId);
    if post.None? {
      return NotFound;
    }
    var existing := likes.GetLikeByPostAndUser(postId, userId);
    ghost var l0 := likes.likes;
    if existing.Some? {
      assert HasLike(l0, postId, userId) by {
        var i :| 0 <= i < |l0| && l0[i] == existing.value;
      }
      likes.DeleteStlLike(existing.value.likeId);
      r := Unliked;
      if UniqueLikes(l0) {
        UnlikeClears(l0, existing.value);
      }
    } else {
      var _ := likes.CreateStlLike(likeId, postId, userId, now);
      r := Liked;
      if UniqueLikes(l0) {
        LikeAdds(l0, Like(likeId, postId, userId, now));
      }
    }
  }

  /** Taking back the one like of a post and user leaves none behind. */
  lemma UnlikeClears(l0: seq<Like>, like: Like)
    requires UniqueLikes(l0) && like in l0
    ensures var l1 := Remove(l0, LikeKey, like.likeId);
      UniqueLikes(l1) && !HasLike(l1, like.postId, like.userId)
  {
    UniqueLikesRemove(l0, like.likeId);
    var l1 := Remove(l0, LikeKey, like.likeId);
    forall i | 0 <= i < |l1|
      ensures !(l1[i].postId == like.postId && l1[i].userId == like.userId)
    {
      assert l1[i] in l0 && l1[i].likeId != like.likeId;
      var a :| 0 <= a < |l0| && l0[a] == l1[i];
      var b :| 0 <= b < |l0| && l0[b] == like;
      assert a != b;
    }
  }

  /** A like appended where the user had none keeps likes unique. */
  lemma LikeAdds(l0: seq<Like>, like: Like)
    requires UniqueLikes(l0) && !HasLike(l0, like.postId, like.userId)
    ensures UniqueLikes(l0 + [like]) && HasLike(l0 + [like], like.postId, like.userId)
  {
    var l1 := l0 + [like];
    assert l1[|l0|] == like;
    forall i, j | 0 <= i < j < |l1| ensures !(l1[i].postId == l1[j].postId && l1[i].userId == l1[j].userId) {
      assert l1[i] == l0[i];
      if j < |l0| {
        assert l1[j] == l0[j];
      }
    }
  }

  /** Liking and then taking the like back leaves the likes as they were. */
  lemma LikeThenUnlike(likes: seq<Like>, likeId: string, postId: string, userId: string, now: string)
    requires !HasKey(likes, LikeKey, likeId)
    ensures Remove(Put(likes, LikeKey, Like(likeId, postId, userId, now)), LikeKey, likeId) == likes
  {
    PutThenRemove(likes, LikeKey, Like(likeId, postId, userId, now));
  }

  /** `delete_post`: 404 for a missing post, 403 unless the current user owns
      it or is an administrator; then the GLB is deleted from S3 (when the
      post has one), and the post's comments, its likes and the post go.
      `s3Fails` says whether `delete_object` raises, in which case the error
      is flashed and nothing is deleted. */
  method DeletePost(posts: PostsTable, comments: CommentsTable, likes: LikesTable,
    postId: string, currentId: string, isAdmin: bool, s3Fails: bool) returns (r: Response)
    requires posts.Valid() && comments.Valid() && likes.Valid()
    modifies posts, comments, likes
    ensures posts.Valid() && comments.Valid() && likes.Valid()
    ensures r == NotFound <==> !HasKey(old(posts.posts), PostKey, postId)
    ensures r != NotFound ==> var owner := Find(old(posts.posts), PostKey, postId).value.userId.GetOr("");
      && (r == Forbidden <==> currentId != owner && !isAdmin)
      && (r == Failed <==> (currentId == owner || isAdmin) && Truthy(Find(old(posts.posts), PostKey, postId).value.stlFilePath) && s3Fails)
    ensures r == NotFound || r == Forbidden || r == Failed || r == Deleted
    ensures r != Deleted ==>
      posts.posts == old(posts.posts) && comments.comments == old(comments.comments) && likes.likes == old(likes.likes)
    ensures r == Deleted ==>
      && posts.posts == Remove(old(posts.posts), PostKey, postId)
      && comments.comments == Without(old(comments.comments), CommentPostId, postId)
      && likes.likes == Without(old(likes.likes), LikePostId, postId)
  {
    var post := posts.GetStlPostById(postId);
    if post.None? {
      return NotFound;
    }
    if currentId != post.value.userId.GetOr("") && !isAdmin {
      return Forbidden;
    }
    if Truthy(post.value.stlFilePath) && s3Fails {
      return Failed;
    }
    comments.DeleteCommentsByPost(postId);
    likes.DeleteLikesByPost(postId);
    posts.DeleteStlPost(postId);
    r := Deleted;
  }

  /** The STL file field of the edit form: none, or a file with its name, its
      `secure_filename`, the upload time and whether conversion and upload
      succeeded. */
  datatype StlUpload =
    | NoStl
    | StlFile(filename: string, safeName: string, timestamp: string, converted: bool)

  /** The image field: none, or a file with its `secure_filename`, the upload
      time and whether the S3 upload succeeded. */
  datatype ImageUpload =
    | NoImage
    | ImageFile(safeName: string, timestamp: string, uploaded: bool)

  datatype EditForm = EditForm(
    submitted: bool, title: string, content: string, youtubeUrl: Option<string>,
    stl: StlUpload, image: ImageUpload)

  /** An upload that stops the edit before anything is written. */
  predicate StlRejected(f: EditForm) {
    f.stl.StlFile? && !EndsWith(Lower(f.stl.filename), ".stl")
  }

  predicate UploadFails(f: EditForm) {
    || (f.stl.StlFile? && !f.stl.converted)
    || (f.image.ImageFile? && (ImageKey(f.image.safeName, f.image.timestamp, "STL-board/images/").Err? || !f.image.uploaded))
  }

  /** The arguments `edit_post` passes to `update_stl_post` for post `p`. */
  function EditUpdate(p: StlPost, f: EditForm, now: string): PostUpdate
    requires !StlRejected(f) && !UploadFails(f)
  {
    var url := Strip(f.youtubeUrl.GetOr(""));
    var stlFilename := if f.stl.StlFile? then Some(GlbName(f.stl.safeName, f.stl.timestamp)) else p.stlFilename;
    var stlFilePath := if f.stl.StlFile? then Some(GlbKey(f.stl.safeName, f.stl.timestamp)) else p.stlFilePath;
    var image := if f.image.ImageFile? then Some(ImageKey(f.image.safeName, f.image.timestamp, "STL-board/images/").value.0)
      else p.imageFilePath;
    PostUpdate(f.title, f.content, now, stlFilename, stlFilePath,
      Some(url), Some(if url != "" then ExtractYoutubeId(url) else ""),
      Some(if url != "" then ToYoutubeEmbed(url) else ""), image)
  }

  /** Without a new STL file the GLB name and path stay, without a new image
      the image path stays; a new file replaces them; the YouTube attributes
      always follow the stripped URL ("" clears them); the glTF path is never
      touched. */
  lemma EditKeepsFiles(p: StlPost, f: EditForm, now: string)
    requires !StlRejected(f) && !UploadFails(f)
    ensures var q := Updated(p, EditUpdate(p, f, now));
      var url := Strip(f.youtubeUrl.GetOr(""));
      && (f.stl.NoStl? ==> q.stlFilename == p.stlFilename && q.stlFilePath == p.stlFilePath)
      && (f.stl.StlFile? ==>
            q.stlFilePath == Some(GlbKey(f.stl.safeName, f.stl.timestamp)) && q.stlFilename == Some(GlbName(f.stl.safeName, f.stl.timestamp)))
      && (f.image.NoImage? ==> q.imageFilePath == p.imageFilePath)
      && (f.image.ImageFile? ==> q.imageFilePath == Some(ImageKey(f.image.safeName, f.image.timestamp, "STL-board/images/").value.0))
      && q.youtubeUrl == Some(url) && q.youtubeId == Some(ExtractYoutubeId(url))
      && q.youtubeEmbedUrl == Some(ToYoutubeEmbed(url))
      && q.gltfFilePath == p.gltfFilePath && q.userId == p.userId && q.createdAt == p.createdAt
      && q.title == Some(f.title) && q.content == Some(f.content) && q.updatedAt == Some(now)
  {
    var u := EditUpdate(p, f, now);
    UpdatedSpec(p, u);
    if f.stl.StlFile? {
      assert GlbName(f.stl.safeName, f.stl.timestamp) != [];
      assert GlbKey(f.stl.safeName, f.stl.timestamp) != [];
    }
  }

  /** `edit_post`: 404 for a missing post, 403 unless the current user's
      email is the owner or the user is an administrator; an unsubmitted
      form changes nothing; a wrong file type or a failed upload stops
      before the table is written; otherwise the post is updated. */
  method EditPost(posts: PostsTable, postId: string, currentEmail: string, isAdmin: bool, f: EditForm, now: string)
    returns (r: Response)
    requires posts.Valid()
    modifies posts
    ensures posts.Valid()
    ensures r == NotFound <==> !HasKey(old(posts.posts), PostKey, postId)
    ensures r != NotFound ==> var p := Find(old(posts.posts), PostKey, postId).value;
      && (r == Forbidden <==> currentEmail != p.userId.GetOr("") && !isAdmin)
      && (r == Edited <==> r != Forbidden && f.submitted && !StlRejected(f) && !UploadFails(f))
    ensures r != Edited ==> posts.posts == old(posts.posts)
    ensures r == Edited ==> var p := Find(old(posts.posts), PostKey, postId).value;
      && |posts.posts| == |old(posts.posts)|
      && forall i :: 0 <= i < |posts.posts| ==>
        posts.posts[i] == if old(posts.posts)[i].postId == postId then Updated(p, EditUpdate(p, f, now)) else old(posts.posts)[i]
  {
    var post := posts.GetStlPostById(postId);
    if post.None? {
      return NotFound;
    }
    var p := post.value;
    if currentEmail != p.userId.GetOr("") && !isAdmin {
      return Forbidden;
    }
    if !f.submitted {
      return Shown;
    }
    if StlRejected(f) {
      return Rejected;
    }
    if UploadFails(f) {
      return Failed;
    }
    ghost var s0 := posts.posts;
    UpdateStlPost(posts, postId, EditUpdate(p, f, now));
    forall i | 0 <= i < |s0| && s0[i].postId == postId ensures s0[i] == p {
      SameKeySameItem(s0, PostKey, s0[i], p);
    }
    r := Edited;
  }
}
