/** The bookkeeping behind the cleanup's sweep of one index partition: which
    entries and keys are left after the first `k` entries of a snapshot have
    been visited, and why resuming a query after the last visited entry reads
    exactly the unvisited rest. `D` is the set of keys the sweep removes. */
module DentalSweep {
  import opened Wrappers
  import opened DentalStore

  /** The index entries of the first `k` visited items that stay in the table. */
  function Survivors(rs: seq<Record>, k: nat, D: set<string>): seq<Entry>
    requires k <= |rs|
  {
    if k == 0 then []
    else
      var rest := Survivors(rs, k - 1, D);
      if rs[k - 1].pk in D then rest else rest + [EntryOf(rs[k - 1])]
  }

  /** The table keys the first `k` visited items lose. */
  function DoomedPks(rs: seq<Record>, k: nat, D: set<string>): set<string>
    requires k <= |rs|
  {
    if k == 0 then {}
    else DoomedPks(rs, k - 1, D) + (if rs[k - 1].pk in D then {rs[k - 1].pk} else {})
  }

  /** The stored items once the first `k` visited items have been dealt with. */
  function RowsAfter(rows0: map<string, Record>, rs: seq<Record>, k: nat, D: set<string>): map<string, Record>
    requires k <= |rs|
  {
    if k == 0 then rows0
    else if rs[k - 1].pk in D then RowsAfter(rows0, rs, k - 1, D) - {rs[k - 1].pk}
    else RowsAfter(rows0, rs, k - 1, D)
  }

  /** The partition's entries once the first `k` visited items have been dealt with. */
  function PartAfter(l0: seq<Entry>, rs: seq<Record>, k: nat, D: set<string>): seq<Entry>
    requires k <= |rs|
  {
    if k == 0 then l0
    else if rs[k - 1].pk in D then RemovePk(PartAfter(l0, rs, k - 1, D), rs[k - 1].pk)
    else PartAfter(l0, rs, k - 1, D)
  }

  /** How many of the first `k` visited items are doomed. */
  function DoomedCount(rs: seq<Record>, k: nat, D: set<string>): nat
    requires k <= |rs|
  {
    if k == 0 then 0
    else DoomedCount(rs, k - 1, D) + if rs[k - 1].pk in D then 1 else 0
  }

  lemma {:induction false} DoomedCountAtMost(rs: seq<Record>, k: nat, D: set<string>)
    requires k <= |rs|
    ensures DoomedCount(rs, k, D) <= k
  {
    if k > 0 {
      DoomedCountAtMost(rs, k - 1, D);
    }
  }

  lemma {:induction false} RowsAfterIs(rows0: map<string, Record>, rs: seq<Record>, k: nat, D: set<string>)
    requires k <= |rs|
    ensures RowsAfter(rows0, rs, k, D) == rows0 - DoomedPks(rs, k, D)
  {
    if k > 0 {
      RowsAfterIs(rows0, rs, k - 1, D);
    }
  }

  lemma {:induction false} SurvivorsFrom(rs: seq<Record>, k: nat, D: set<string>)
    requires k <= |rs|
    ensures forall y :: y in Survivors(rs, k, D) ==>
              exists i :: 0 <= i < k && y == EntryOf(rs[i]) && rs[i].pk !in D
  {
    if k > 0 {
      SurvivorsFrom(rs, k - 1, D);
    }
  }

  /** A key is lost exactly when one of the visited items with that key is doomed. */
  lemma {:induction false} DoomedPksIff(rs: seq<Record>, k: nat, D: set<string>)
    requires k <= |rs|
    ensures forall pk :: pk in DoomedPks(rs, k, D) <==>
              exists i :: 0 <= i < k && rs[i].pk == pk && rs[i].pk in D
  {
    if k > 0 {
      DoomedPksIff(rs, k - 1, D);
    }
  }

  /** What the cleanup of partition `p` starts from: its entries `l0`, newest
      first, and the stored items `r0` they point at. */
  ghost predicate Snapshot(rows0: map<string, Record>, p: string, l0: seq<Entry>, r0: seq<Record>) {
    && SnapshotItems(rows0, p, l0, r0)
    && Desc(l0)
    && (forall pk :: pk in rows0 && rows0[pk].gsi1pk == p ==> rows0[pk].pk == pk && EntryOf(rows0[pk]) in l0)
  }

  /** The entries have distinct keys, and `r0[i]` is the stored item of `l0[i]`. */
  ghost predicate SnapshotItems(rows0: map<string, Record>, p: string, l0: seq<Entry>, r0: seq<Record>) {
    && |r0| == |l0|
    && (forall i, j {:trigger l0[i].pk, l0[j].pk} :: 0 <= i < j < |l0| ==> l0[i].pk != l0[j].pk)
    && (forall i {:trigger r0[i]} :: 0 <= i < |l0| ==>
          && EntryOf(r0[i]) == l0[i] && r0[i].pk in rows0 && rows0[r0[i].pk] == r0[i]
          && r0[i].gsi1pk == p)
  }

  /** The table once the first `k` entries of the partition have been visited. */
  ghost predicate SweptState(rows: map<string, Record>, index: map<string, seq<Entry>>,
                             p: string, D: set<string>,
                             rows0: map<string, Record>, index0: map<string, seq<Entry>>,
                             l0: seq<Entry>, r0: seq<Record>, k: nat)
  {
    && k <= |l0| == |r0|
    && PartitionOf(index, p) == PartAfter(l0, r0, k, D)
    && rows == RowsAfter(rows0, r0, k, D)
    && (forall q :: q != p ==> PartitionOf(index, q) == PartitionOf(index0, q))
  }

  /** The entries of a partition of a valid table point at distinct stored items. */
  lemma PartitionItems(t: DentalTable, p: string)
    requires t.Valid()
    ensures SnapshotItems(t.rows, p, t.Partition(p), RecordsOf(t.rows, t.Partition(p)))
  {
    var l0 := t.Partition(p);
    DistinctPks(t.hash, t.rows, t.index, p);
    assert forall i :: 0 <= i < |l0| ==> l0[i] in l0;
  }

  /** Every stored item of a partition is listed in it, newest first. */
  lemma PartitionCovers(t: DentalTable, p: string)
    requires t.Valid()
    ensures Desc(t.Partition(p))
    ensures forall pk :: pk in t.rows && t.rows[pk].gsi1pk == p ==> t.rows[pk].pk == pk && EntryOf(t.rows[pk]) in t.Partition(p)
  {
  }

  /** The snapshot of a partition of a valid table, before anything is visited. */
  lemma SnapshotOf(t: DentalTable, p: string, D: set<string>) returns (l0: seq<Entry>, r0: seq<Record>)
    requires t.Valid()
    ensures l0 == t.Partition(p)
    ensures Snapshot(t.rows, p, l0, r0)
    ensures SweptState(t.rows, t.index, p, D, t.rows, t.index, l0, r0, 0)
  {
    l0, r0 := t.Partition(p), RecordsOf(t.rows, t.Partition(p));
    PartitionItems(t, p);
    PartitionCovers(t, p);
  }

  /** The entries left in the partition: the visited ones that stay, then the unvisited rest. */
  lemma {:induction false} PartAfterIs(rows0: map<string, Record>, p: string, l0: seq<Entry>, r0: seq<Record>,
                                       D: set<string>, k: nat)
    requires SnapshotItems(rows0, p, l0, r0) && k <= |l0|
    ensures PartAfter(l0, r0, k, D) == Survivors(r0, k, D) + l0[k..]
  {
    if k == 0 {
      assert l0[0..] == l0;
    } else {
      PartAfterIs(rows0, p, l0, r0, D, k - 1);
      if r0[k - 1].pk in D {
        DeleteStep(p, D, rows0, l0, r0, k - 1);
      } else {
        KeepStep(p, D, l0, r0, k - 1);
      }
    }
  }

  /** A doomed key lies in the partition and was visited; every visited key
      is absent from what is still to come. */
  lemma VisitedKeys(rows0: map<string, Record>, p: string, l0: seq<Entry>, r0: seq<Record>,
                    D: set<string>, k: nat)
    requires SnapshotItems(rows0, p, l0, r0) && k < |l0|
    ensures l0[k].pk !in DoomedPks(r0, k, D)
    ensures forall y :: y in Survivors(r0, k, D) ==> y.pk != l0[k].pk
  {
    DoomedPksIff(r0, k, D);
    SurvivorsFrom(r0, k, D);
    forall i | 0 <= i < k
      ensures r0[i].pk != l0[k].pk
    {
      assert r0[i].pk == l0[i].pk;
    }
    forall y | y in Survivors(r0, k, D)
      ensures y.pk != l0[k].pk
    {
      var i :| 0 <= i < k && y == EntryOf(r0[i]) && r0[i].pk !in D;
      assert y == l0[i];
    }
  }

  /** A stored key that no visited item carries is still stored. */
  lemma {:induction false} StillStored(rows0: map<string, Record>, rs: seq<Record>, k: nat, D: set<string>, x: string)
    requires k <= |rs| && x in rows0
    requires forall i :: 0 <= i < k ==> rs[i].pk != x
    ensures x in RowsAfter(rows0, rs, k, D)
  {
    if k > 0 {
      StillStored(rows0, rs, k - 1, D, x);
    }
  }

  lemma MapRemoveOne(m: map<string, Record>, x: string)
    requires x in m
    ensures |m - {x}| == |m| - 1
  {
    assert (m - {x}).Keys == m.Keys - {x};
  }

  /** Each doomed visited item removes one stored item. */
  lemma {:induction false} RowsAfterSize(rows0: map<string, Record>, rs: seq<Record>, D: set<string>, k: nat)
    requires k <= |rs|
    requires forall i :: 0 <= i < |rs| ==> rs[i].pk in rows0
    requires forall i, j :: 0 <= i < j < |rs| ==> rs[i].pk != rs[j].pk
    ensures |RowsAfter(rows0, rs, k, D)| == |rows0| - DoomedCount(rs, k, D)
  {
    if k > 0 {
      RowsAfterSize(rows0, rs, D, k - 1);
      var pk := rs[k - 1].pk;
      if pk in D {
        StillStored(rows0, rs, k - 1, D, pk);
        MapRemoveOne(RowsAfter(rows0, rs, k - 1, D), pk);
      }
    }
  }

  /** Resuming from the key of the last visited item reads exactly the unvisited rest. */
  lemma RemainingIsRest(t: DentalTable, p: string, D: set<string>,
                        rows0: map<string, Record>, index0: map<string, seq<Entry>>,
                        l0: seq<Entry>, r0: seq<Record>, k: nat, lek: Option<StartKey>)
    requires Snapshot(rows0, p, l0, r0) && SweptState(t.rows, t.index, p, D, rows0, index0, l0, r0, k)
    requires (k == 0 && lek.None?) || (k >= 1 && lek.Some? && Position(lek.value) == l0[k - 1])
    ensures t.Remaining(p, lek) == l0[k..]
  {
    PartAfterIs(rows0, p, l0, r0, D, k);
    if lek.Some? {
      var x := l0[k - 1];
      var surv := Survivors(r0, k, D);
      BelowAppend(surv, l0[k..], x);
      SurvivorsFrom(r0, k, D);
      forall y | y in surv
        ensures !EntryLt(y, x)
      {
        var i :| 0 <= i < k && y == EntryOf(r0[i]) && r0[i].pk !in D;
        assert y == l0[i];
        if i < k - 1 {
          EntryLtAsymmetric(y, x);
        } else {
          EntryLtIrreflexive(x);
        }
      }
      BelowNone(surv, x);
      forall y | y in l0[k..]
        ensures EntryLt(y, x)
      {
        var j :| 0 <= j < |l0[k..]| && l0[k..][j] == y;
        assert y == l0[k + j];
      }
      BelowAll(l0[k..], x);
    }
  }

  /** Visiting an item that stays leaves the table as it is. */
  lemma KeepStep(p: string, D: set<string>, l0: seq<Entry>, r0: seq<Record>, k: nat)
    requires k < |l0| == |r0| && EntryOf(r0[k]) == l0[k] && r0[k].pk !in D
    ensures Survivors(r0, k + 1, D) + l0[k + 1..] == Survivors(r0, k, D) + l0[k..]
    ensures DoomedPks(r0, k + 1, D) == DoomedPks(r0, k, D)
  {
    assert l0[k..] == [l0[k]] + l0[k + 1..];
  }

  /** Visiting a doomed item removes its entry and its key. */
  lemma DeleteStep(p: string, D: set<string>, rows0: map<string, Record>,
                   l0: seq<Entry>, r0: seq<Record>, k: nat)
    requires SnapshotItems(rows0, p, l0, r0) && k < |l0| && r0[k].pk in D
    ensures Survivors(r0, k + 1, D) + l0[k + 1..] ==
            RemovePk(Survivors(r0, k, D) + l0[k..], r0[k].pk)
    ensures DoomedPks(r0, k + 1, D) == DoomedPks(r0, k, D) + {r0[k].pk}
  {
    var pk := r0[k].pk;
    VisitedKeys(rows0, p, l0, r0, D, k);
    RemovePkAppend(Survivors(r0, k, D), l0[k..], pk);
    RemovePkAbsent(Survivors(r0, k, D), pk);
    assert l0[k..] == [l0[k]] + l0[k + 1..];
    assert l0[k].pk == pk;
    forall y | y in l0[k + 1..]
      ensures y.pk != pk
    {
      var j :| 0 <= j < |l0[k + 1..]| && l0[k + 1..][j] == y;
      assert y == l0[k + 1 + j];
    }
    RemovePkAbsent(l0[k + 1..], pk);
  }

  /** Deleting a doomed item moves the sweep one entry on. */
  lemma SweptAfterDelete(rows: map<string, Record>, index: map<string, seq<Entry>>,
                         p: string, D: set<string>,
                         rows0: map<string, Record>, index0: map<string, seq<Entry>>,
                         l0: seq<Entry>, r0: seq<Record>, k: nat)
    requires SnapshotItems(rows0, p, l0, r0) && SweptState(rows, index, p, D, rows0, index0, l0, r0, k)
    requires k < |l0| && r0[k].pk in D
    ensures r0[k].pk in rows && rows[r0[k].pk].gsi1pk == p && p in index
    ensures |rows - {r0[k].pk}| == |rows| - 1
    ensures SweptState(rows - {r0[k].pk}, index[p := RemovePk(index[p], r0[k].pk)],
                       p, D, rows0, index0, l0, r0, k + 1)
  {
    var pk := r0[k].pk;
    DeletedIsStored(rows0, p, l0, r0, D, k);
    DeletedIsListed(rows0, p, l0, r0, D, k);
    MapRemoveOne(rows, pk);
  }

  /** The item being visited is still stored when the sweep reaches it. */
  lemma DeletedIsStored(rows0: map<string, Record>, p: string, l0: seq<Entry>, r0: seq<Record>,
                        D: set<string>, k: nat)
    requires SnapshotItems(rows0, p, l0, r0) && k < |l0|
    ensures r0[k].pk in RowsAfter(rows0, r0, k, D) && RowsAfter(rows0, r0, k, D)[r0[k].pk] == r0[k]
  {
    VisitedKeys(rows0, p, l0, r0, D, k);
    RowsAfterIs(rows0, r0, k, D);
  }

  /** The entry being visited is still listed when the sweep reaches it. */
  lemma DeletedIsListed(rows0: map<string, Record>, p: string, l0: seq<Entry>, r0: seq<Record>,
                        D: set<string>, k: nat)
    requires SnapshotItems(rows0, p, l0, r0) && k < |l0|
    ensures l0[k] in PartAfter(l0, r0, k, D)
  {
    PartAfterIs(rows0, p, l0, r0, D, k);
    assert l0[k] == l0[k..][0];
  }

  /** Visiting an item that stays, or whose delete raises, moves the sweep on
      without changing the table. */
  lemma SweptAfterKeep(rows: map<string, Record>, index: map<string, seq<Entry>>,
                       p: string, D: set<string>,
                       rows0: map<string, Record>, index0: map<string, seq<Entry>>,
                       l0: seq<Entry>, r0: seq<Record>, k: nat)
    requires SnapshotItems(rows0, p, l0, r0) && SweptState(rows, index, p, D, rows0, index0, l0, r0, k)
    requires k < |l0| && r0[k].pk !in D
    ensures SweptState(rows, index, p, D, rows0, index0, l0, r0, k + 1)
  {
  }

  /** The page read from the unvisited rest holds the next items of the snapshot. */
  lemma PageItems(t: DentalTable, p: string, rows0: map<string, Record>, gone: set<string>,
                  l0: seq<Entry>, r0: seq<Record>, k: nat, lek: Option<StartKey>, limit: int, page: Page)
    requires t.Valid() && Snapshot(rows0, p, l0, r0) && k <= |l0|
    requires t.rows == rows0 - gone
    requires t.Remaining(p, lek) == l0[k..] && t.Query(p, limit, lek) == Ok(page)
    ensures && k + |page.items| <= |l0|
            && page.items == r0[k..k + |page.items|]
            && (page.next.None? ==> k + |page.items| == |l0|)
  {
    var n := |page.items|;
    t.QueryReadsRemaining(p, limit, lek);
    forall j | 0 <= j < n
      ensures page.items[j] == r0[k + j]
    {
      assert EntryOf(page.items[j]) == l0[k + j];
    }
    assert page.items == r0[k..k + n];
  }

  /** A page that hands out a continuation key is full, and the key is the
      position of its last item. */
  lemma PageNext(t: DentalTable, p: string, l0: seq<Entry>, k: nat, lek: Option<StartKey>, limit: int, page: Page)
    requires t.Valid() && k <= |l0|
    requires t.Remaining(p, lek) == l0[k..] && t.Query(p, limit, lek) == Ok(page)
    ensures page.next.Some? ==>
              && |page.items| == limit && k + |page.items| <= |l0|
              && Position(page.next.value) == l0[k + |page.items| - 1]
  {
    if page.next.Some? {
      t.QueryNextIsLast(p, limit, lek);
      t.QueryReadsRemaining(p, limit, lek);
      assert EntryOf(page.items[limit - 1]) == l0[k..][limit - 1];
    }
  }

  /** The page read after `k` visited entries. */
  lemma PageIsNext(t: DentalTable, p: string, D: set<string>,
                   rows0: map<string, Record>, index0: map<string, seq<Entry>>,
                   l0: seq<Entry>, r0: seq<Record>, k: nat, lek: Option<StartKey>, limit: int, page: Page)
    requires t.Valid() && Snapshot(rows0, p, l0, r0) && SweptState(t.rows, t.index, p, D, rows0, index0, l0, r0, k)
    requires (k == 0 && lek.None?) || (k >= 1 && lek.Some? && Position(lek.value) == l0[k - 1])
    requires t.Query(p, limit, lek) == Ok(page)
    ensures && k + |page.items| <= |l0|
            && page.items == r0[k..k + |page.items|]
            && (page.next.None? ==> k + |page.items| == |l0|)
            && (page.next.Some? ==>
                  |page.items| == limit && Position(page.next.value) == l0[k + |page.items| - 1])
  {
    RemainingIsRest(t, p, D, rows0, index0, l0, r0, k, lek);
    RowsAfterIs(rows0, r0, k, D);
    PageItems(t, p, rows0, DoomedPks(r0, k, D), l0, r0, k, lek, limit, page);
    PageNext(t, p, l0, k, lek, limit, page);
  }

  /** The whole partition swept: the table lost one item per doomed entry. */
  lemma SweptAllSize(rows: map<string, Record>, index: map<string, seq<Entry>>, p: string, D: set<string>,
                     rows0: map<string, Record>, index0: map<string, seq<Entry>>,
                     l0: seq<Entry>, r0: seq<Record>)
    requires Snapshot(rows0, p, l0, r0) && SweptState(rows, index, p, D, rows0, index0, l0, r0, |l0|)
    ensures |rows| == |rows0| - DoomedCount(r0, |l0|, D) && DoomedCount(r0, |l0|, D) <= |l0|
  {
    assert forall i :: 0 <= i < |r0| ==> r0[i].pk == l0[i].pk;
    RowsAfterSize(rows0, r0, D, |l0|);
    DoomedCountAtMost(r0, |l0|, D);
  }

  /** The whole partition swept: the table lost exactly the keys in `D`. */
  lemma SweptAll(rows: map<string, Record>, index: map<string, seq<Entry>>, p: string, D: set<string>,
                 rows0: map<string, Record>, index0: map<string, seq<Entry>>,
                 l0: seq<Entry>, r0: seq<Record>)
    requires Snapshot(rows0, p, l0, r0) && SweptState(rows, index, p, D, rows0, index0, l0, r0, |l0|)
    requires forall pk :: pk in D ==> pk in rows0 && rows0[pk].gsi1pk == p
    ensures rows == rows0 - D
  {
    RowsAfterIs(rows0, r0, |l0|, D);
    DoomedPksIff(r0, |l0|, D);
    forall pk | pk in D
      ensures pk in DoomedPks(r0, |l0|, D)
    {
      var i :| 0 <= i < |l0| && l0[i] == EntryOf(rows0[pk]);
      assert r0[i].pk == pk;
    }
    assert DoomedPks(r0, |l0|, D) == D;
  }
}
