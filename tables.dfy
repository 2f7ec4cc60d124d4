/** DynamoDB tables seen through boto3's `scan`, `get_item`, `put_item` and
    `delete_item`: a table is the sequence of its items in scan order, each
    with a distinct key given by `key`. */
module Tables {
  import opened Wrappers

  predicate DistinctKeys<T(==, !new)>(s: seq<T>, key: T -> string) {
    forall i, j :: 0 <= i < j < |s| ==> key(s[i]) != key(s[j])
  }

  predicate HasKey<T(==, !new)>(s: seq<T>, key: T -> string, k: string) {
    exists i :: 0 <= i < |s| && key(s[i]) == k
  }

  /** With distinct keys, two items with the same key are the same item. */
  lemma SameKeySameItem<T(!new)>(s: seq<T>, key: T -> string, x: T, y: T)
    requires DistinctKeys(s, key) && x in s && y in s && key(x) == key(y)
    ensures x == y
  {
    var i :| 0 <= i < |s| && s[i] == x;
    var j :| 0 <= j < |s| && s[j] == y;
  }

  /** The items satisfying `p`, in scan order: a scan with a `FilterExpression`. */
  function Where<T(==, !new)>(s: seq<T>, p: T -> bool): (r: seq<T>)
    ensures |r| <= |s|
    ensures forall x :: x in r <==> x in s && p(x)
    ensures forall i :: 0 <= i < |r| ==> p(r[i])
    ensures multiset(r) <= multiset(s)
    decreases |s|
  {
    if s == [] then []
    else
      assert s == [s[0]] + s[1..];
      (if p(s[0]) then [s[0]] else []) + Where(s[1..], p)
  }

  /** Filtering keeps distinct keys distinct. */
  lemma {:induction false} WhereDistinct<T(!new)>(s: seq<T>, p: T -> bool, key: T -> string)
    requires DistinctKeys(s, key)
    ensures DistinctKeys(Where(s, p), key)
    decreases |s|
  {
    if s != [] {
      WhereDistinct(s[1..], p, key);
      var t := Where(s[1..], p);
      if p(s[0]) {
        forall j | 0 <= j < |t| ensures key(s[0]) != key(t[j]) {
          assert t[j] in s[1..];
          var m :| 0 <= m < |s[1..]| && s[1..][m] == t[j];
          assert key(s[0]) != key(s[m + 1]);
        }
        var r := Where(s, p);
        assert r == [s[0]] + t;
        forall i, j | 0 <= i < j < |r| ensures key(r[i]) != key(r[j]) {
          if i > 0 {
            assert r[i] == t[i - 1] && r[j] == t[j - 1];
          } else {
            assert r[j] == t[j - 1];
          }
        }
      }
    }
  }

  /** Filters that agree on the items give the same result. */
  lemma {:induction false} WhereExt<T(!new)>(s: seq<T>, p: T -> bool, q: T -> bool)
    requires forall x :: x in s ==> p(x) == q(x)
    ensures Where(s, p) == Where(s, q)
    decreases |s|
  {
    if s != [] {
      assert s[0] in s;
      assert forall x :: x in s[1..] ==> x in s;
      WhereExt(s[1..], p, q);
    }
  }

  /** `delete_item(Key=k)`: the item with key `k` goes; a missing key changes nothing. */
  function Remove<T(==, !new)>(s: seq<T>, key: T -> string, k: string): (r: seq<T>)
    ensures forall x :: x in r <==> x in s && key(x) != k
    ensures |r| <= |s|
    decreases |s|
  {
    if s == [] then []
    else
      assert s == [s[0]] + s[1..];
      (if key(s[0]) != k then [s[0]] else []) + Remove(s[1..], key, k)
  }

  /** What is left once every key in `ks` has been deleted. */
  function RemoveKeys<T(==, !new)>(s: seq<T>, key: T -> string, ks: set<string>): (r: seq<T>)
    ensures forall x :: x in r <==> x in s && key(x) !in ks
    ensures |r| <= |s|
    decreases |s|
  {
    if s == [] then []
    else
      assert s == [s[0]] + s[1..];
      (if key(s[0]) !in ks then [s[0]] else []) + RemoveKeys(s[1..], key, ks)
  }

  lemma {:induction false} RemoveKeysNone<T(!new)>(s: seq<T>, key: T -> string)
    ensures RemoveKeys(s, key, {}) == s
    decreases |s|
  {
    if s != [] {
      RemoveKeysNone(s[1..], key);
    }
  }

  /** One more delete extends the set of deleted keys. */
  lemma {:induction false} RemoveStep<T(!new)>(s: seq<T>, key: T -> string, ks: set<string>, k: string)
    ensures Remove(RemoveKeys(s, key, ks), key, k) == RemoveKeys(s, key, ks + {k})
    decreases |s|
  {
    if s != [] {
      RemoveStep(s[1..], key, ks, k);
      var w := RemoveKeys(s, key, ks);
      if key(s[0]) !in ks {
        assert w == [s[0]] + RemoveKeys(s[1..], key, ks);
        assert w[0] == s[0] && w[1..] == RemoveKeys(s[1..], key, ks);
      } else {
        assert w == RemoveKeys(s[1..], key, ks);
      }
    }
  }

  /** The items whose attribute `f` equals `v`, in scan order: a scan with
      `FilterExpression=Attr(...).eq(v)`. */
  function Matching<T(==, !new)>(s: seq<T>, f: T -> string, v: string): (r: seq<T>)
    ensures forall x :: x in r <==> x in s && f(x) == v
    ensures multiset(r) <= multiset(s)
    decreases |s|
  {
    if s == [] then []
    else
      assert s == [s[0]] + s[1..];
      (if f(s[0]) == v then [s[0]] else []) + Matching(s[1..], f, v)
  }

  /** The items whose attribute `f` differs from `v`, in scan order. */
  function Without<T(==, !new)>(s: seq<T>, f: T -> string, v: string): (r: seq<T>)
    ensures forall x :: x in r <==> x in s && f(x) != v
    decreases |s|
  {
    if s == [] then []
    else
      assert s == [s[0]] + s[1..];
      (if f(s[0]) != v then [s[0]] else []) + Without(s[1..], f, v)
  }

  /** Deleting a set of keys that singles out the items with `f(x) == v`
      leaves exactly the others, in their order. */
  lemma {:induction false} RemoveKeysIsWithout<T(!new)>(s: seq<T>, key: T -> string, ks: set<string>, f: T -> string, v: string)
    requires forall x :: x in s ==> (key(x) in ks <==> f(x) == v)
    ensures RemoveKeys(s, key, ks) == Without(s, f, v)
    decreases |s|
  {
    if s != [] {
      assert s[0] in s;
      assert forall x :: x in s[1..] ==> x in s;
      RemoveKeysIsWithout(s[1..], key, ks, f, v);
    }
  }

  /** The keys of a sequence of items. */
  function KeysOf<T(==, !new)>(s: seq<T>, key: T -> string): (r: set<string>)
    ensures forall x :: x in s ==> key(x) in r
    ensures forall k :: k in r ==> exists x :: x in s && key(x) == k
  {
    set x | x in s :: key(x)
  }

  lemma KeysOfSnoc<T(!new)>(s: seq<T>, key: T -> string, x: T)
    ensures KeysOf(s + [x], key) == KeysOf(s, key) + {key(x)}
  {
    assert forall y :: y in s + [x] <==> y in s || y == x;
  }

  /** `put_item`: the item replaces the one with the same key, or is appended. */
  function Put<T(==, !new)>(s: seq<T>, key: T -> string, x: T): (r: seq<T>)
    ensures HasKey(s, key, key(x)) ==>
      && |r| == |s|
      && forall i :: 0 <= i < |s| ==> r[i] == if key(s[i]) == key(x) then x else s[i]
    ensures !HasKey(s, key, key(x)) ==> r == s + [x]
    ensures DistinctKeys(s, key) ==> DistinctKeys(r, key)
    ensures x in r
  {
    if HasKey(s, key, key(x)) then
      var r := seq(|s|, i requires 0 <= i < |s| => if key(s[i]) == key(x) then x else s[i]);
      var i :| 0 <= i < |s| && key(s[i]) == key(x);
      assert r[i] == x;
      r
    else
      s + [x]
  }

  /** `get_item(Key=k)`: the item with key `k`, if any (the first one in
      scan order, which is the only one when keys are distinct). */
  function Find<T(==, !new)>(s: seq<T>, key: T -> string, k: string): (r: Option<T>)
    ensures r.None? <==> !HasKey(s, key, k)
    ensures r.Some? ==> r.value in s && key(r.value) == k
    decreases |s|
  {
    if s == [] then None
    else if key(s[0]) == k then Some(s[0])
    else
      var r := Find(s[1..], key, k);
      assert HasKey(s, key, k) ==> HasKey(s[1..], key, k) by {
        if HasKey(s, key, k) {
          var i :| 0 <= i < |s| && key(s[i]) == k;
          assert s[1..][i - 1] == s[i];
        }
      }
      assert r.Some? ==> r.value in s by {
        if r.Some? {
          assert r.value in s[1..];
        }
      }
      assert HasKey(s[1..], key, k) ==> HasKey(s, key, k) by {
        if HasKey(s[1..], key, k) {
          var i :| 0 <= i < |s[1..]| && key(s[1..][i]) == k;
          assert s[i + 1] == s[1..][i];
        }
      }
      r
  }

  /** The first item satisfying `p`: boto3's `items[0] if items else None`
      after a filtered scan. */
  function First<T(==, !new)>(s: seq<T>, p: T -> bool): (r: Option<T>)
    ensures r.None? <==> (forall x :: x in s ==> !p(x))
    ensures r.Some? ==> r.value in s && p(r.value)
    ensures r.Some? ==> Where(s, p) != [] && r.value == Where(s, p)[0]
    decreases |s|
  {
    if s == [] then None
    else if p(s[0]) then Some(s[0])
    else
      assert forall x :: x in s ==> x == s[0] || x in s[1..];
      First(s[1..], p)
  }

  /** Deleting the keys of exactly the items with `f(x) == v` leaves the
      others, in their order. */
  lemma RemoveTargets<T(!new)>(s: seq<T>, key: T -> string, targets: seq<T>, f: T -> string, v: string)
    requires DistinctKeys(s, key)
    requires forall x :: x in targets <==> x in s && f(x) == v
    ensures RemoveKeys(s, key, KeysOf(targets, key)) == Without(s, f, v)
  {
    forall x | x in s ensures key(x) in KeysOf(targets, key) <==> f(x) == v {
      if key(x) in KeysOf(targets, key) {
        var t :| t in targets && key(t) == key(x);
        SameKeySameItem(s, key, x, t);
      }
    }
    RemoveKeysIsWithout(s, key, KeysOf(targets, key), f, v);
  }

  /** The keys of one more item of a sequence. */
  lemma KeysOfPrefix<T(!new)>(s: seq<T>, key: T -> string, i: nat)
    requires i < |s|
    ensures KeysOf(s[..i + 1], key) == KeysOf(s[..i], key) + {key(s[i])}
  {
    assert s[..i + 1] == s[..i] + [s[i]];
    KeysOfSnoc(s[..i], key, s[i]);
  }

  lemma KeysOfWhole<T(!new)>(s: seq<T>, key: T -> string)
    ensures KeysOf(s[..|s|], key) == KeysOf(s, key)
  {
    assert s[..|s|] == s;
  }

  lemma KeysOfEmpty<T(!new)>(key: T -> string)
    ensures KeysOf([], key) == {}
  {
  }

  /** Deleting a key that no item has changes nothing. */
  lemma {:induction false} RemoveMissing<T(!new)>(s: seq<T>, key: T -> string, k: string)
    requires !HasKey(s, key, k)
    ensures Remove(s, key, k) == s
    decreases |s|
  {
    if s != [] {
      assert forall i :: 0 <= i < |s[1..]| ==> s[1..][i] == s[i + 1];
      RemoveMissing(s[1..], key, k);
    }
  }

  lemma {:induction false} RemoveAppend<T(!new)>(s: seq<T>, t: seq<T>, key: T -> string, k: string)
    ensures Remove(s + t, key, k) == Remove(s, key, k) + Remove(t, key, k)
    decreases |s|
  {
    if s != [] {
      assert (s + t)[1..] == s[1..] + t;
      RemoveAppend(s[1..], t, key, k);
    } else {
      assert s + t == t;
    }
  }

  /** Putting an item under a fresh key and deleting it again restores the table. */
  lemma PutThenRemove<T(!new)>(s: seq<T>, key: T -> string, x: T)
    requires !HasKey(s, key, key(x))
    ensures Remove(Put(s, key, x), key, key(x)) == s
  {
    RemoveAppend(s, [x], key, key(x));
    RemoveMissing(s, key, key(x));
    assert Remove([x], key, key(x)) == [];
  }

  /** After `put_item`, `get_item` under the same key returns the item put. */
  lemma PutThenFind<T(!new)>(s: seq<T>, key: T -> string, x: T)
    requires DistinctKeys(s, key)
    ensures Find(Put(s, key, x), key, key(x)) == Some(x)
  {
    var r := Put(s, key, x);
    assert HasKey(r, key, key(x)) by {
      var i :| 0 <= i < |r| && r[i] == x;
    }
    var found := Find(r, key, key(x)).value;
    SameKeySameItem(r, key, found, x);
  }

  /** A filter that no item passes yields nothing. */
  lemma {:induction false} MatchingNone<T(!new)>(s: seq<T>, f: T -> string, v: string)
    requires forall x :: x in s ==> f(x) != v
    ensures Matching(s, f, v) == []
    decreases |s|
  {
    if s != [] {
      assert s[0] in s;
      assert forall x :: x in s[1..] ==> x in s;
      MatchingNone(s[1..], f, v);
    }
  }
}
