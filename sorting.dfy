/** Python's `sorted(xs, key=..., reverse=...)` as an insertion sort by an
    ordering `before(x, y)` ("x may come first"). What is proved is that the
    result is in order and a rearrangement of the input; the order among
    equal elements, which Python keeps stable, is not stated. */
module Sorting {
  import opened PySlice

  ghost predicate TotalPreorder<T(!new)>(before: (T, T) -> bool) {
    && (forall a, b :: before(a, b) || before(b, a))
    && (forall a, b, c :: before(a, b) && before(b, c) ==> before(a, c))
  }

  /** `reverse=True` with an integer `key`: a larger key may come first. */
  function DescBy<T(!new)>(key: T -> int): (before: (T, T) -> bool)
    ensures TotalPreorder(before)
    ensures forall a, b :: before(a, b) <==> key(a) >= key(b)
  {
    (a, b) => key(a) >= key(b)
  }

  predicate Sorted<T>(s: seq<T>, before: (T, T) -> bool) {
    forall i, j :: 0 <= i < j < |s| ==> before(s[i], s[j])
  }

  /** Places `x` in front of the first element it may precede. */
  function Insert<T>(x: T, s: seq<T>, before: (T, T) -> bool): (r: seq<T>)
    ensures multiset(r) == multiset(s) + multiset{x}
    ensures |r| == |s| + 1
  {
    if s == [] then [x]
    else if before(x, s[0]) then [x] + s
    else
      assert s == [s[0]] + s[1..];
      [s[0]] + Insert(x, s[1..], before)
  }

  function Sort<T>(s: seq<T>, before: (T, T) -> bool): (r: seq<T>)
    ensures multiset(r) == multiset(s)
    ensures |r| == |s|
  {
    if s == [] then []
    else
      assert s == [s[0]] + s[1..];
      Insert(s[0], Sort(s[1..], before), before)
  }

  lemma {:induction false} InsertSorted<T(!new)>(x: T, s: seq<T>, before: (T, T) -> bool)
    requires TotalPreorder(before)
    requires Sorted(s, before)
    ensures Sorted(Insert(x, s, before), before)
    decreases |s|
  {
    if s != [] && !before(x, s[0]) {
      InsertSorted(x, s[1..], before);
      var r := Insert(x, s, before);
      var t := Insert(x, s[1..], before);
      assert r == [s[0]] + t;
      assert forall k :: 0 <= k < |t| ==> t[k] in multiset(s[1..]) + multiset{x};
      forall k | 0 <= k < |t|
        ensures before(s[0], t[k])
      {
        assert t[k] in multiset(s[1..]) + multiset{x};
        if t[k] != x {
          assert t[k] in multiset(s[1..]);
          var m :| 0 <= m < |s[1..]| && s[1..][m] == t[k];
          assert s[m + 1] == t[k];
        }
      }
    }
  }

  /** `sorted` returns its input rearranged into order. */
  lemma {:induction false} SortSorted<T(!new)>(s: seq<T>, before: (T, T) -> bool)
    requires TotalPreorder(before)
    ensures Sorted(Sort(s, before), before)
    decreases |s|
  {
    if s != [] {
      SortSorted(s[1..], before);
      InsertSorted(s[0], Sort(s[1..], before), before);
    }
  }

  /** A piece of a sorted sequence is sorted. */
  lemma SortedPiece<T>(s: seq<T>, a: nat, b: nat, before: (T, T) -> bool)
    requires Sorted(s, before) && a <= b <= |s|
    ensures Sorted(s[a..b], before)
  {
    forall i, j | 0 <= i < j < b - a ensures before(s[a..b][i], s[a..b][j]) {
      assert s[a..b][i] == s[a + i] && s[a..b][j] == s[a + j];
    }
  }

  /** A page `s[start:start+perPage]` of a sorted rearrangement of `xs`:
      at most `perPage` elements, in order, all from `xs`, and for a start
      inside the sequence exactly the elements from there on. */
  lemma SortedSlice<T>(items: seq<T>, xs: seq<T>, start: int, perPage: int, before: (T, T) -> bool)
    requires perPage > 0 && multiset(items) == multiset(xs) && Sorted(items, before)
    ensures var shown := Slice(items, start, start + perPage);
      && |shown| <= perPage
      && Sorted(shown, before)
      && (forall x :: x in shown ==> x in xs)
      && (0 <= start < |items| ==>
            shown == items[start..if start + perPage < |items| then start + perPage else |items|])
  {
    SliceIsPiece(items, start, start + perPage);
    var shown := Slice(items, start, start + perPage);
    var a: nat, b: nat :| a <= b <= |items| && shown == items[a..b];
    SortedPiece(items, a, b, before);
    forall x | x in shown ensures x in xs {
      assert x in multiset(items);
    }
  }

  /** `sorted(xs)[:limit]`: a sub-multiset of `xs` in order, of exactly
      min(limit, |xs|) elements for a non-negative limit, and every element
      left out may come after every element kept. */
  lemma {:induction false} TakeSorted<T(!new)>(xs: seq<T>, limit: int, before: (T, T) -> bool)
    requires TotalPreorder(before)
    ensures var r := Take(Sort(xs, before), limit);
      && Sorted(r, before)
      && multiset(r) <= multiset(xs)
      && (limit >= 0 ==> |r| == if limit < |xs| then limit else |xs|)
      && (limit >= |xs| ==> multiset(r) == multiset(xs))
      && (forall p, q :: p in r && q in multiset(xs) - multiset(r) ==> before(p, q))
  {
    var sorted := Sort(xs, before);
    SortSorted(xs, before);
    var r := Take(sorted, limit);
    TakeIsPrefix(sorted, limit);
    var k := |r|;
    assert sorted == r + sorted[k..];
    assert multiset(xs) - multiset(r) == multiset(sorted[k..]);
    SortedPiece(sorted, 0, k, before);
    assert sorted[0..k] == r;
    SortedCut(sorted, k, before);
  }

  /** In a sorted sequence every element before a cut may come before every
      element after it. */
  lemma SortedCut<T>(s: seq<T>, k: nat, before: (T, T) -> bool)
    requires Sorted(s, before) && k <= |s|
    ensures forall p, q :: p in s[..k] && q in multiset(s[k..]) ==> before(p, q)
  {
    forall p, q | p in s[..k] && q in multiset(s[k..])
      ensures before(p, q)
    {
      assert q in s[k..];
      var i :| 0 <= i < k && s[..k][i] == p;
      var j :| 0 <= j < |s| - k && s[k..][j] == q;
      assert s[i] == p && s[k + j] == q;
    }
  }

}
