/** Python's slicing `s[start:stop]` with step 1 (negative bounds count from
    the end, and out-of-range bounds are clamped instead of failing) and
    Python's floor division, as the hand-made paginations use them. */
module PySlice {
  /** Where a slice bound `i` lands in a sequence of length `n`. */
  function Norm(i: int, n: nat): (r: nat)
    ensures r <= n
    ensures 0 <= i <= n ==> r == i
    ensures i > n ==> r == n
    ensures i < 0 ==> r == if i + n < 0 then 0 else i + n
  {
    if i < 0 then (if i + n < 0 then 0 else i + n)
    else if i > n then n
    else i
  }

  /** `s[start:stop]`. */
  function Slice<T>(s: seq<T>, start: int, stop: int): (r: seq<T>)
    ensures |r| <= |s|
    ensures Norm(start, |s|) < Norm(stop, |s|) ==> r == s[Norm(start, |s|)..Norm(stop, |s|)]
    ensures Norm(start, |s|) >= Norm(stop, |s|) ==> r == []
  {
    var a := Norm(start, |s|);
    var b := Norm(stop, |s|);
    if a < b then s[a..b] else []
  }

  /** `s[:stop]`. */
  function Take<T>(s: seq<T>, stop: int): (r: seq<T>)
    ensures stop >= 0 ==> r == s[..if stop < |s| then stop else |s|]
    ensures stop < 0 ==> r == s[..if |s| + stop < 0 then 0 else |s| + stop]
  {
    Slice(s, 0, stop)
  }

  /** `s[:stop]` is always a prefix of `s`. */
  lemma TakeIsPrefix<T>(s: seq<T>, stop: int)
    ensures |Take(s, stop)| <= |s| && Take(s, stop) == s[..|Take(s, stop)|]
  {
  }

  /** `s[start:]`. */
  function Drop<T>(s: seq<T>, start: int): (r: seq<T>)
    ensures start >= 0 ==> r == s[if start < |s| then start else |s|..]
  {
    Slice(s, start, |s|)
  }

  /** A Python slice of a sequence is always a contiguous piece of it. */
  lemma SliceIsPiece<T>(s: seq<T>, start: int, stop: int)
    ensures exists a: nat, b: nat :: a <= b <= |s| && Slice(s, start, stop) == s[a..b]
  {
    var a := Norm(start, |s|);
    var b := Norm(stop, |s|);
    if a < b {
      assert Slice(s, start, stop) == s[a..b];
    } else {
      assert Slice(s, start, stop) == s[a..a];
    }
  }

  /** Python's `a // b`, which rounds toward negative infinity. */
  function FloorDiv(a: int, b: int): (r: int)
    requires b != 0
    ensures b > 0 ==> r * b <= a < r * b + b
  {
    if b > 0 then a / b else (-a) / (-b)
  }

  /** `(total + per_page - 1) // per_page` is the number of pages of
      `per_page` items that hold `total` items: 0 for none. */
  lemma CeilPages(total: nat, perPage: int)
    requires perPage > 0
    ensures var q := FloorDiv(total + perPage - 1, perPage);
      && (total == 0 ==> q == 0)
      && (total > 0 ==> q >= 1 && (q - 1) * perPage < total <= q * perPage)
  {
    var q := FloorDiv(total + perPage - 1, perPage);
    if total > 0 {
      assert q >= 1 by {
        assert q * perPage + perPage > total + perPage - 1;
      }
      assert (q - 1) * perPage == q * perPage - perPage;
    } else {
      assert q <= 0 by {
        assert q * perPage <= perPage - 1;
      }
      assert q >= 0 by {
        assert q * perPage + perPage > perPage - 1;
      }
    }
  }
}
