/** views/main.py: unique S3 keys (`get_unique_filename`), the keys of
    `upload_file`, and the listing and page arithmetic of `s3_browser`. */
module MainViews {
  import opened Wrappers
  import opened Text
  import opened PySlice
  import opened Paths
  import opened Sorting
  import opened TextFix

  /** `f"{base}_{counter}{ext}"`. */
  function Candidate(base: string, n: nat, ext: string): string {
    base + "_" + NatToString(n) + ext
  }

  /** Different counters give different keys. */
  lemma CandidateInjective(base: string, ext: string, i: nat, j: nat)
    requires i != j
    ensures Candidate(base, i, ext) != Candidate(base, j, ext)
  {
    var a := NatToString(i);
    var b := NatToString(j);
    NatToStringInjective(i, j);
    var ci := Candidate(base, i, ext);
    var cj := Candidate(base, j, ext);
    if |a| == |b| {
      assert ci[|base| + 1..|base| + 1 + |a|] == a;
      assert cj[|base| + 1..|base| + 1 + |a|] == b;
    } else {
      assert |ci| != |cj|;
    }
  }

  /** A counted key is never the key it was made from with no counter. */
  lemma CandidateNotPlain(base: string, ext: string, n: nat)
    ensures Candidate(base, n, ext) != base + ext
  {
    assert |Candidate(base, n, ext)| > |base + ext|;
  }

  /** A list of distinct keys has as many elements as its set. */
  lemma {:induction false} DistinctCard(s: seq<string>)
    requires forall i, j :: 0 <= i < j < |s| ==> s[i] != s[j]
    ensures |set x | x in s| == |s|
  {
    if s != [] {
      var init := s[..|s| - 1];
      DistinctCard(init);
      assert (set x | x in s) == (set x | x in init) + {s[|s| - 1]};
      assert s[|s| - 1] !in (set x | x in init);
    }
  }

  lemma SubsetCard(a: set<string>, b: set<string>)
    requires a <= b
    ensures |a| <= |b|
  {
    assert b == a + (b - a);
  }

  /** The key tried before counter `n` is used: the key itself first, then `base_1ext`, … */
  function Tried(key: string, base: string, ext: string, j: nat): string {
    if j == 0 then key else Candidate(base, j, ext)
  }

  /** The first `k` tried keys are pairwise different. */
  lemma TriedDistinct(key: string, base: string, ext: string, k: nat)
    requires key == base + ext
    ensures var s := seq(k, j requires 0 <= j => Tried(key, base, ext, j));
            forall i, j :: 0 <= i < j < |s| ==> s[i] != s[j]
  {
    var s := seq(k, j requires 0 <= j => Tried(key, base, ext, j));
    forall i, j | 0 <= i < j < |s|
      ensures s[i] != s[j]
    {
      if i == 0 {
        CandidateNotPlain(base, ext, j);
      } else {
        CandidateInjective(base, ext, i, j);
      }
    }
  }

  /** Only as many keys can have been tried, and found taken, as there are keys. */
  lemma TriedBound(existing: set<string>, key: string, base: string, ext: string, k: nat)
    requires key == base + ext
    requires forall j: nat :: j < k ==> Tried(key, base, ext, j) in existing
    ensures k <= |existing|
  {
    var s := seq(k, j requires 0 <= j => Tried(key, base, ext, j));
    TriedDistinct(key, base, ext, k);
    DistinctCard(s);
    assert (set x | x in s) <= existing;
    SubsetCard((set x | x in s), existing);
  }

  /** `get_unique_filename(bucket, key)` against the keys `existing` holds
      (`head_object` succeeds exactly for those): the key itself when it is
      free, else the first free `base_N+ext` for N = 1, 2, … */
  method UniqueFilename(existing: set<string>, key: string) returns (newKey: string)
    ensures newKey !in existing
    ensures key !in existing ==> newKey == key
    ensures key in existing ==>
              exists n: nat :: n >= 1 && newKey == Candidate(SplitExt(key).0, n, SplitExt(key).1) &&
                               forall j: nat :: 1 <= j < n ==> Candidate(SplitExt(key).0, j, SplitExt(key).1) in existing
  {
    var (base, ext) := SplitExt(key);
    var counter: nat := 1;
    newKey := key;
    while newKey in existing
      invariant counter >= 1
      invariant forall j: nat :: j < counter - 1 ==> Tried(key, base, ext, j) in existing
      invariant newKey == Tried(key, base, ext, counter - 1)
      invariant counter - 1 <= |existing|
      decreases |existing| - (counter - 1)
    {
      TriedBound(existing, key, base, ext, counter);
      newKey := Candidate(base, counter, ext);
      counter := counter + 1;
    }
    if key in existing {
      assert forall j: nat :: 1 <= j < counter - 1 ==> Candidate(base, j, ext) == Tried(key, base, ext, j);
      assert newKey == Candidate(base, counter - 1, ext);
    }
  }

  const UploadPrefix: string := "uploads/"

  /** `f"uploads/{sanitize_filename(os.path.basename(path))}"`, before it is made unique. */
  function UploadKey(path: string): string {
    UploadPrefix + SanitizeFilename(Basename(path), 100)
  }

  lemma UploadKeyPrefix(path: string)
    ensures StartsWith(UploadKey(path), UploadPrefix)
  {
    var k := UploadKey(path);
    assert k[..|UploadPrefix|] == UploadPrefix;
  }

  /** The keys of the bucket. */
  class Bucket {
    var keys: set<string>

    constructor(initial: set<string>)
      ensures keys == initial
    {
      keys := initial;
    }

    /** One file of `upload_file`: stored under its sanitized name in
        `uploads/`, made unique against the keys stored so far. */
    method UploadOne(path: string) returns (key: string)
      modifies this
      ensures key !in old(keys) && StartsWith(key, UploadPrefix)
      ensures keys == old(keys) + {key}
    {
      var s3Key := UploadKey(path);
      UploadKeyPrefix(path);
      key := UniqueFilename(keys, s3Key);
      UniqueKeepsPrefix(s3Key, key);
      keys := keys + {key};
    }

    /** The upload loop of `upload_file`: every file gets its own new key,
        earlier uploads of the same request included. */
    method UploadFiles(paths: seq<string>) returns (uploaded: seq<string>)
      modifies this
      ensures |uploaded| == |paths|
      ensures forall i :: 0 <= i < |uploaded| ==> uploaded[i] !in old(keys)
      ensures forall i :: 0 <= i < |uploaded| ==> StartsWith(uploaded[i], UploadPrefix)
      ensures forall i, j :: 0 <= i < j < |uploaded| ==> uploaded[i] != uploaded[j]
      ensures keys == old(keys) + (set k | k in uploaded)
    {
      uploaded := [];
      for i := 0 to |paths|
        invariant |uploaded| == i
        invariant forall m :: 0 <= m < i ==> uploaded[m] !in old(keys)
        invariant forall m :: 0 <= m < i ==> StartsWith(uploaded[m], UploadPrefix)
        invariant forall m, n :: 0 <= m < n < i ==> uploaded[m] != uploaded[n]
        invariant keys == old(keys) + (set k | k in uploaded)
      {
        var key := UploadOne(paths[i]);
        uploaded := uploaded + [key];
      }
    }
  }

  /** Splitting off the extension leaves a directory prefix with the name. */
  lemma SplitKeepsPrefix(key: string)
    requires StartsWith(key, UploadPrefix)
    ensures StartsWith(SplitExt(key).0, UploadPrefix)
  {
    var split := SplitExt(key);
    var base, ext := split.0, split.1;
    assert key == base + ext;
    assert key[7] == key[..8][7] == UploadPrefix[7] == '/';
    assert forall j :: |base| <= j < |key| ==> key[j] == ext[j - |base|];
    assert |base| >= 8;
    assert base[..8] == key[..8];
  }

  lemma CandidateKeepsPrefix(base: string, n: nat, ext: string)
    requires StartsWith(base, UploadPrefix)
    ensures StartsWith(Candidate(base, n, ext), UploadPrefix)
  {
    assert Candidate(base, n, ext)[..|UploadPrefix|] == base[..|UploadPrefix|];
  }

  /** A key made unique keeps the directory prefix it was made from. */
  lemma UniqueKeepsPrefix(key: string, unique: string)
    requires StartsWith(key, UploadPrefix)
    requires unique == key || exists n: nat :: unique == Candidate(SplitExt(key).0, n, SplitExt(key).1)
    ensures StartsWith(unique, UploadPrefix)
  {
    if unique != key {
      var n: nat :| unique == Candidate(SplitExt(key).0, n, SplitExt(key).1);
      SplitKeepsPrefix(key);
      CandidateKeepsPrefix(SplitExt(key).0, n, SplitExt(key).1);
    }
  }

  // ----- s3_browser -----

  /** An entry of `list_objects_v2`'s `Contents`; `lastModified` as a timestamp. */
  datatype S3Object = S3Object(key: string, size: nat, lastModified: int)

  /** One shown image; its `filename` is derived from the key. */
  datatype Image = Image(key: string, url: string, size: nat, lastModified: int) {
    /** `key.split('/')[-1]`. */
    function FileName(): string {
      AfterLast(key, '/')
    }
  }

  /** `x['last_modified']` may come first in a newest-first order. */
  function NewerFirst(a: Image, b: Image): bool {
    a.lastModified >= b.lastModified
  }

  lemma NewerFirstIsTotalPreorder()
    ensures TotalPreorder(NewerFirst)
  {
  }

  const PerPage: nat := 12

  /** The `pagination` dict; `page_range` is `range(rangeLo, rangeHi)`. */
  datatype Pagination = Pagination(
    total: nat, pages: nat, current: int, hasPrev: bool, hasNext: bool,
    prevPage: Option<int>, nextPage: Option<int>, rangeLo: int, rangeHi: int)

  /** `(total + per_page - 1) // per_page`. */
  function PageCount(total: nat, perPage: nat): (r: nat)
    requires perPage > 0
    ensures total == 0 <==> r == 0
    ensures r > 0 ==> (r - 1) * perPage < total <= r * perPage
  {
    (total + perPage - 1) / perPage
  }

  /** The requested page, moved into [1, pages] when there are pages. */
  function ClampPage(page: int, pages: nat): (r: int)
    ensures pages > 0 ==> 1 <= r <= pages
    ensures 1 <= page <= pages ==> r == page
    ensures pages == 0 ==> r == if page < 1 then 1 else page
  {
    if page < 1 then 1 else if page > pages && pages > 0 then pages else page
  }

  function Max(a: int, b: int): int { if a >= b then a else b }
  function Min(a: int, b: int): int { if a <= b then a else b }

  /** The page arithmetic of `s3_browser` for `total` images. */
  function BrowserPagination(total: nat, page: int): (r: Pagination)
    ensures r.total == total && r.pages == PageCount(total, PerPage)
    ensures r.pages > 0 ==> 1 <= r.current <= r.pages
    ensures r.hasPrev <==> r.current > 1
    ensures r.hasNext <==> r.current < r.pages
    ensures r.prevPage.Some? <==> r.hasPrev
    ensures r.nextPage.Some? <==> r.hasNext
    ensures r.prevPage.Some? ==> r.prevPage.value == r.current - 1
    ensures r.nextPage.Some? ==> r.nextPage.value == r.current + 1
    ensures r.rangeLo == Max(1, r.current - 2) && r.rangeHi == Min(r.pages + 1, r.current + 3)
  {
    var pages := PageCount(total, PerPage);
    var current := ClampPage(page, pages);
    Pagination(total, pages, current, current > 1, current < pages,
               if current > 1 then Some(current - 1) else None,
               if current < pages then Some(current + 1) else None,
               Max(1, current - 2), Min(pages + 1, current + 3))
  }

  /** Every page number offered lies in [1, pages] and within two of the current page. */
  lemma PageRangeInBounds(total: nat, page: int)
    ensures var r := BrowserPagination(total, page);
            1 <= r.rangeLo && r.rangeHi <= r.pages + 1 && r.current - 2 <= r.rangeLo && r.rangeHi <= r.current + 3
  {
  }

  /** `all_images[start_idx:end_idx]`. */
  function ShownImages(images: seq<Image>, current: int): seq<Image> {
    var start := (current - 1) * PerPage;
    Slice(images, start, Min(start + PerPage, |images|))
  }

  /** With at least one image, the current page shows a non-empty run of at
      most twelve images, the one at `(current-1)*12` first. */
  lemma ShownIsPage(images: seq<Image>, page: int)
    requires images != []
    ensures var r := BrowserPagination(|images|, page);
            var start := (r.current - 1) * PerPage;
            && 0 <= start < |images|
            && ShownImages(images, r.current) == images[start..Min(start + PerPage, |images|)]
            && 0 < |ShownImages(images, r.current)| <= PerPage
  {
    var r := BrowserPagination(|images|, page);
    assert (r.current - 1) * PerPage < |images| by {
      assert (r.pages - 1) * PerPage < |images|;
      assert r.current - 1 <= r.pages - 1;
    }
  }

  /** What `s3_browser` renders. */
  datatype BrowserView = BrowserView(images: seq<Image>, pagination: Pagination)

  /** The image record made for an object; `presign` is the presigned URL service. */
  function ImageOf(obj: S3Object, presign: string -> string): Image {
    Image(obj.key, presign(obj.key), obj.size, obj.lastModified)
  }

  /** The image records of the first `n` objects, in listing order. */
  function ImagesUpTo(objects: seq<S3Object>, n: nat, presign: string -> string): seq<Image>
    requires n <= |objects|
  {
    if n == 0 then [] else ImagesUpTo(objects, n - 1, presign) + [ImageOf(objects[n - 1], presign)]
  }

  /** The image records of `objects`, in listing order. */
  function ImagesOf(objects: seq<S3Object>, presign: string -> string): seq<Image> {
    ImagesUpTo(objects, |objects|, presign)
  }

  /** One image per object, the `j`-th made from the `j`-th object. */
  lemma {:induction false} ImagesUpToIndex(objects: seq<S3Object>, n: nat, presign: string -> string)
    requires n <= |objects|
    ensures |ImagesUpTo(objects, n, presign)| == n
    ensures forall j :: 0 <= j < n ==> ImagesUpTo(objects, n, presign)[j] == ImageOf(objects[j], presign)
  {
    if n > 0 {
      ImagesUpToIndex(objects, n - 1, presign);
    }
  }

  /** `sorted(all_images, key=lambda x: x['last_modified'], reverse=True)`. */
  function NewestFirst(images: seq<Image>): (r: seq<Image>)
    ensures multiset(r) == multiset(images)
    ensures Sorted(r, NewerFirst)
  {
    NewerFirstIsTotalPreorder();
    SortSorted(images, NewerFirst);
    Sort(images, NewerFirst)
  }

  /** The loop of `s3_browser` that builds `all_images`. */
  method CollectImages(objects: seq<S3Object>, presign: string -> string) returns (allImages: seq<Image>)
    ensures allImages == ImagesOf(objects, presign)
  {
    allImages := [];
    for i := 0 to |objects|
      invariant allImages == ImagesUpTo(objects, i, presign)
    {
      allImages := allImages + [ImageOf(objects[i], presign)];
    }
  }

  /** Whatever the page asked for, at most twelve images are shown. */
  lemma ShownAtMostAPage(images: seq<Image>, page: int)
    ensures |ShownImages(images, BrowserPagination(|images|, page).current)| <= PerPage
  {
    if images != [] {
      ShownIsPage(images, page);
    }
  }

  /** `s3_browser(page)` over `Contents` (None when the listing has none):
      the images of the listing, newest first, cut to the requested page.
      Without `Contents` the source's pagination dict holds only `total`,
      `pages`, `current`, `has_prev` and `has_next`; the view's `prev_num`
      and `next_num` (None) and its page range (1, 1) are this model's
      fillers for the keys that dict does not have. */
  method S3Browser(contents: Option<seq<S3Object>>, page: int, presign: string -> string) returns (view: BrowserView)
    ensures contents.None? ==> view == BrowserView([], Pagination(0, 0, page, false, false, None, None, 1, 1))
    ensures contents.Some? ==> view.pagination == BrowserPagination(|contents.value|, page)
    ensures contents.Some? ==>
              view.images == ShownImages(NewestFirst(ImagesOf(contents.value, presign)), view.pagination.current)
    ensures |view.images| <= PerPage
  {
    if contents.None? {
      return BrowserView([], Pagination(0, 0, page, false, false, None, None, 1, 1));
    }
    var allImages := CollectImages(contents.value, presign);
    var sorted := NewestFirst(allImages);
    ImagesUpToIndex(contents.value, |contents.value|, presign);
    assert |sorted| == |multiset(allImages)| == |contents.value|;
    var pagination := BrowserPagination(|sorted|, page);
    ShownAtMostAPage(sorted, page);
    view := BrowserView(ShownImages(sorted, pagination.current), pagination);
  }
}
