/** `news_admin_cleanup_irrelevant`: pages through six index partitions of the
    dental-news table, 40 items at a time, and deletes every item that fails
    `is_relevant` for the partition's language. A delete that raises is
    logged and skipped; `faulty` names the table keys whose delete raises. */
module DentalCleanup {
  import opened Wrappers
  import opened Text
  import opened DentalStore
  import opened DentalRelevance
  import opened DentalSweep

  const PageLimit := 40

  /** The (kind, lang) partitions the cleanup visits, in order. */
  const Targets: seq<(string, string)> := [
    ("research", "ja"), ("case", "ja"), ("video", "ja"),
    ("research", "en"), ("case", "en"), ("video", "en")]

  /** An item the cleanup removes: irrelevant, and its delete does not raise. */
  predicate Doomed(r: Record, lang: string, faulty: set<string>) {
    !IsRelevant(r.title, r.summary, lang) && r.pk !in faulty
  }

  /** The keys of the items of partition `p` that the cleanup removes. */
  ghost function DoomedSet(rows: map<string, Record>, p: string, lang: string, faulty: set<string>): set<string> {
    set pk | pk in rows && rows[pk].gsi1pk == p && Doomed(rows[pk], lang, faulty)
  }

  /** `Doomed` with the lowered allow and deny lists of `is_relevant` for the
      partition's language passed in, as the sweep below uses it. */
  predicate DoomedWith(r: Record, allow: seq<string>, deny: seq<string>, faulty: set<string>) {
    !RelevantWith(r.title, r.summary, allow, deny) && r.pk !in faulty
  }

  ghost function DoomedSetWith(rows: map<string, Record>, p: string, allow: seq<string>, deny: seq<string>,
                               faulty: set<string>): set<string> {
    set pk | pk in rows && rows[pk].gsi1pk == p && DoomedWith(rows[pk], allow, deny, faulty)
  }

  lemma DoomedSetIs(rows: map<string, Record>, p: string, lang: string, faulty: set<string>)
    ensures DoomedSet(rows, p, lang, faulty) ==
            DoomedSetWith(rows, p, LowerAll(AllowTerms(lang)), LowerAll(DenyTerms(lang)), faulty)
  {
  }

  /** The loop body for one item: `checked += 1`, and a delete when it fails
      `is_relevant`; `deleted` tells whether `removed` was incremented. */
  method SweepItem(t: DentalTable, p: string, allow: seq<string>, deny: seq<string>, faulty: set<string>, ghost D: set<string>,
                   ghost rows0: map<string, Record>, ghost index0: map<string, seq<Entry>>,
                   ghost l0: seq<Entry>, ghost r0: seq<Record>, ghost k: nat, it: Record)
    returns (deleted: bool)
    requires t.Valid() && SnapshotItems(rows0, p, l0, r0)
    requires D == DoomedSetWith(rows0, p, allow, deny, faulty)
    requires SweptState(t.rows, t.index, p, D, rows0, index0, l0, r0, k) && k < |l0| && it == r0[k]
    modifies t
    ensures t.Valid() && SweptState(t.rows, t.index, p, D, rows0, index0, l0, r0, k + 1)
    ensures deleted == DoomedWith(it, allow, deny, faulty) == (it.pk in D)
  {
    deleted := false;
    if !RelevantWith(it.title, it.summary, allow, deny) {
      if it.pk in faulty {
        SweptAfterKeep(t.rows, t.index, p, D, rows0, index0, l0, r0, k);
        var _ := t.Delete(it.pk, true);
      } else {
        SweptAfterDelete(t.rows, t.index, p, D, rows0, index0, l0, r0, k);
        deleted := t.Delete(it.pk, false);
      }
    } else {
      SweptAfterKeep(t.rows, t.index, p, D, rows0, index0, l0, r0, k);
    }
  }

  /** One page: the inner `for it in items` loop. */
  method SweepPage(t: DentalTable, p: string, allow: seq<string>, deny: seq<string>, faulty: set<string>, ghost D: set<string>,
                   ghost rows0: map<string, Record>, ghost index0: map<string, seq<Entry>>,
                   ghost l0: seq<Entry>, ghost r0: seq<Record>, ghost k: nat, items: seq<Record>, ghost k1: nat)
    returns (checked: nat, removed: nat)
    requires t.Valid() && SnapshotItems(rows0, p, l0, r0) && SweptState(t.rows, t.index, p, D, rows0, index0, l0, r0, k)
    requires D == DoomedSetWith(rows0, p, allow, deny, faulty)
    requires k1 == k + |items| <= |l0| && items == r0[k..k1]
    modifies t
    ensures t.Valid() && SweptState(t.rows, t.index, p, D, rows0, index0, l0, r0, k1)
    ensures checked == |items| && removed + DoomedCount(r0, k, D) == DoomedCount(r0, k1, D)
  {
    checked, removed := 0, 0;
    ghost var j := k;
    while checked < |items|
      invariant checked <= |items| && j == k + checked
      invariant t.Valid() && SweptState(t.rows, t.index, p, D, rows0, index0, l0, r0, j)
      invariant removed + DoomedCount(r0, k, D) == DoomedCount(r0, j, D)
    {
      assert items[checked] == r0[j];
      var deleted := SweepItem(t, p, allow, deny, faulty, D, rows0, index0, l0, r0, j, items[checked]);
      assert DoomedCount(r0, j + 1, D) == DoomedCount(r0, j, D) + if deleted then 1 else 0;
      checked, j := checked + 1, j + 1;
      if deleted {
        removed := removed + 1;
      }
    }
    assert j == k1;
  }

  /** One round of the `while True` loop: read the page after `lek` and visit its
      items; `done` is the loop's `break`. */
  method SweepRound(t: DentalTable, p: string, allow: seq<string>, deny: seq<string>, faulty: set<string>, ghost D: set<string>,
                    ghost rows0: map<string, Record>, ghost index0: map<string, seq<Entry>>,
                    ghost l0: seq<Entry>, ghost r0: seq<Record>, k: nat, lek: Option<StartKey>)
    returns (k1: nat, r: nat, next: Option<StartKey>, done: bool)
    requires t.Valid() && Snapshot(rows0, p, l0, r0) && SweptState(t.rows, t.index, p, D, rows0, index0, l0, r0, k)
    requires D == DoomedSetWith(rows0, p, allow, deny, faulty)
    requires (k == 0 && lek.None?) || (k >= 1 && lek.Some? && Position(lek.value) == l0[k - 1])
    modifies t
    ensures t.Valid() && SweptState(t.rows, t.index, p, D, rows0, index0, l0, r0, k1)
    ensures r + DoomedCount(r0, k, D) == DoomedCount(r0, k1, D)
    ensures done ==> k1 == |l0|
    ensures !done ==> k < k1 && next.Some? && Position(next.value) == l0[k1 - 1]
  {
    var q := t.Query(p, PageLimit, lek);
    var page := q.value;
    PageIsNext(t, p, D, rows0, index0, l0, r0, k, lek, PageLimit, page);
    // `if not items and not next_lek: break` visits nothing, which is what the
    // inner loop does with an empty page, so both breaks are `next_lek` missing.
    k1 := k + |page.items|;
    var c;
    c, r := SweepPage(t, p, allow, deny, faulty, D, rows0, index0, l0, r0, k, page.items, k1);
    next, done := page.next, page.next.None?;
  }

  /** The `while True` loop over one partition, from its first page to the
      page without a `LastEvaluatedKey`. */
  method SweepPartition(t: DentalTable, p: string, allow: seq<string>, deny: seq<string>, faulty: set<string>, ghost D: set<string>,
                        ghost rows0: map<string, Record>, ghost index0: map<string, seq<Entry>>,
                        ghost l0: seq<Entry>, ghost r0: seq<Record>)
    returns (checked: nat, removed: nat)
    requires t.Valid() && Snapshot(rows0, p, l0, r0) && SweptState(t.rows, t.index, p, D, rows0, index0, l0, r0, 0)
    requires D == DoomedSetWith(rows0, p, allow, deny, faulty)
    modifies t
    ensures t.Valid() && SweptState(t.rows, t.index, p, D, rows0, index0, l0, r0, |l0|)
    ensures checked == |l0| && removed == DoomedCount(r0, |l0|, D)
  {
    checked, removed := 0, 0;
    var lek: Option<StartKey> := None;
    while true
      invariant t.Valid() && SweptState(t.rows, t.index, p, D, rows0, index0, l0, r0, checked)
      invariant (checked == 0 && lek.None?) || (checked >= 1 && lek.Some? && Position(lek.value) == l0[checked - 1])
      invariant removed == DoomedCount(r0, checked, D)
      decreases |l0| - checked
    {
      var k1, r, next, done := SweepRound(t, p, allow, deny, faulty, D, rows0, index0, l0, r0, checked, lek);
      checked, removed := k1, removed + r;
      if done {
        break;
      }
      lek := next;
    }
  }

  /** `news_admin_cleanup_irrelevant` for one (kind, lang) partition: every
      irrelevant item of the partition whose delete does not raise is gone,
      and nothing else changed. */
  method CleanupPartition(t: DentalTable, kind: string, lang: string, faulty: set<string>)
    returns (checked: nat, removed: nat)
    requires t.Valid()
    modifies t
    ensures t.Valid()
    ensures t.rows == old(t.rows) - DoomedSet(old(t.rows), PartitionKey(kind, lang), lang, faulty)
    ensures forall q :: q != PartitionKey(kind, lang) ==> t.Partition(q) == old(t.Partition(q))
    ensures checked == |old(t.Partition(PartitionKey(kind, lang)))|
    ensures removed == |old(t.rows)| - |t.rows| && removed <= checked
  {
    var p := PartitionKey(kind, lang);
    ghost var rows0, index0 := t.rows, t.index;
    var allow, deny := LowerAll(AllowTerms(lang)), LowerAll(DenyTerms(lang));
    ghost var D := DoomedSetWith(rows0, p, allow, deny, faulty);
    DoomedSetIs(rows0, p, lang, faulty);
    ghost var l0, r0 := SnapshotOf(t, p, D);
    checked, removed := SweepPartition(t, p, allow, deny, faulty, D, rows0, index0, l0, r0);
    SweptAll(t.rows, t.index, p, D, rows0, index0, l0, r0);
    SweptAllSize(t.rows, t.index, p, D, rows0, index0, l0, r0);
  }

  function TargetKey(i: nat): string
    requires i < |Targets|
  {
    PartitionKey(Targets[i].0, Targets[i].1)
  }

  lemma TargetKeysDistinct(i: nat, j: nat)
    requires i < j < |Targets|
    ensures TargetKey(i) != TargetKey(j)
  {
    var a, b := TargetKey(i), TargetKey(j);
    assert a[5] == Targets[i].0[0] && b[5] == Targets[j].0[0];
    if Targets[i].0 == Targets[j].0 {
      assert a[|a| - 2] != b[|b| - 2];
    }
  }

  /** The keys removed by the first `n` partitions of the cleanup. */
  ghost function CleanedSet(rows: map<string, Record>, n: nat, faulty: set<string>): set<string>
    requires n <= |Targets|
  {
    if n == 0 then {}
    else CleanedSet(rows, n - 1, faulty) + DoomedSet(rows, TargetKey(n - 1), Targets[n - 1].1, faulty)
  }

  /** An item is removed exactly when it lies in one of the visited partitions,
      fails `is_relevant` for that partition's language, and its delete does not raise. */
  lemma CleanedSetIff(rows: map<string, Record>, n: nat, faulty: set<string>, pk: string)
    requires n <= |Targets|
    ensures pk in CleanedSet(rows, n, faulty) <==>
              pk in rows && exists i :: 0 <= i < n && rows[pk].gsi1pk == TargetKey(i) &&
                                        Doomed(rows[pk], Targets[i].1, faulty)
  {
    if pk in CleanedSet(rows, n, faulty) {
      CleanedSetSound(rows, n, faulty, pk);
    }
    if pk in rows && exists i :: 0 <= i < n && rows[pk].gsi1pk == TargetKey(i) &&
                                 Doomed(rows[pk], Targets[i].1, faulty) {
      var i :| 0 <= i < n && rows[pk].gsi1pk == TargetKey(i) && Doomed(rows[pk], Targets[i].1, faulty);
      CleanedSetComplete(rows, n, faulty, pk, i);
    }
  }

  lemma {:induction false} CleanedSetSound(rows: map<string, Record>, n: nat, faulty: set<string>, pk: string)
    requires n <= |Targets| && pk in CleanedSet(rows, n, faulty)
    ensures pk in rows && exists i :: 0 <= i < n && rows[pk].gsi1pk == TargetKey(i) &&
                                      Doomed(rows[pk], Targets[i].1, faulty)
  {
    var last := n - 1;
    if pk in DoomedSet(rows, TargetKey(last), Targets[last].1, faulty) {
      assert rows[pk].gsi1pk == TargetKey(last) && Doomed(rows[pk], Targets[last].1, faulty);
    } else {
      CleanedSetSound(rows, last, faulty, pk);
    }
  }

  lemma {:induction false} CleanedSetComplete(rows: map<string, Record>, n: nat, faulty: set<string>, pk: string, i: nat)
    requires n <= |Targets| && i < n
    requires pk in rows && rows[pk].gsi1pk == TargetKey(i) && Doomed(rows[pk], Targets[i].1, faulty)
    ensures pk in CleanedSet(rows, n, faulty)
  {
    if i == n - 1 {
      assert pk in DoomedSet(rows, TargetKey(i), Targets[i].1, faulty);
    } else {
      CleanedSetComplete(rows, n - 1, faulty, pk, i);
    }
  }

  lemma {:induction false} CleanedSetInTargets(rows: map<string, Record>, n: nat, faulty: set<string>, pk: string)
    requires n <= |Targets| && pk in CleanedSet(rows, n, faulty)
    ensures pk in rows && exists i :: 0 <= i < n && rows[pk].gsi1pk == TargetKey(i)
  {
    CleanedSetIff(rows, n, faulty, pk);
  }

  /** The number of index entries in the first `n` partitions. */
  function CheckedTotal(index: map<string, seq<Entry>>, n: nat): nat
    requires n <= |Targets|
  {
    if n == 0 then 0 else CheckedTotal(index, n - 1) + |PartitionOf(index, TargetKey(n - 1))|
  }

  /** The stored items after the first `n` partitions have been cleaned. */
  ghost function RowsLeft(rows0: map<string, Record>, n: nat, faulty: set<string>): map<string, Record>
    requires n <= |Targets|
  {
    if n == 0 then rows0
    else RowsLeft(rows0, n - 1, faulty) - DoomedSet(rows0, TargetKey(n - 1), Targets[n - 1].1, faulty)
  }

  lemma {:induction false} RowsLeftIs(rows0: map<string, Record>, n: nat, faulty: set<string>)
    requires n <= |Targets|
    ensures RowsLeft(rows0, n, faulty) == rows0 - CleanedSet(rows0, n, faulty)
  {
    if n > 0 {
      RowsLeftIs(rows0, n - 1, faulty);
      MinusMinus(rows0, CleanedSet(rows0, n - 1, faulty), DoomedSet(rows0, TargetKey(n - 1), Targets[n - 1].1, faulty));
    }
  }

  /** A partition the earlier rounds did not touch has the same doomed items as before. */
  lemma DoomedSetUntouched(rows0: map<string, Record>, n: nat, faulty: set<string>, lang: string)
    requires n < |Targets|
    ensures DoomedSet(RowsLeft(rows0, n, faulty), TargetKey(n), lang, faulty) ==
            DoomedSet(rows0, TargetKey(n), lang, faulty)
  {
    RowsLeftIs(rows0, n, faulty);
    var rows := rows0 - CleanedSet(rows0, n, faulty);
    forall pk | pk in rows0 && rows0[pk].gsi1pk == TargetKey(n)
      ensures pk in rows
    {
      if pk in CleanedSet(rows0, n, faulty) {
        CleanedSetInTargets(rows0, n, faulty, pk);
        var i :| 0 <= i < n && rows0[pk].gsi1pk == TargetKey(i);
        TargetKeysDistinct(i, n);
      }
    }
  }

  lemma MinusMinus(m: map<string, Record>, a: set<string>, b: set<string>)
    ensures (m - a) - b == m - (a + b)
  {
    assert ((m - a) - b).Keys == (m - (a + b)).Keys;
  }

  /** The text `news_admin_cleanup_irrelevant` returns. */
  function CleanupMessage(checked: nat, removed: nat): string {
    "[CLEANUP] checked=" + NatToString(checked) + " removed=" + NatToString(removed)
  }

  /** One pass of `news_admin_cleanup_irrelevant`'s loop: target partition `i`
      is cleaned, which takes the stored items from `RowsLeft(rows0, i, ..)` to
      `RowsLeft(rows0, i + 1, ..)` and leaves the later target partitions as
      they were. */
  method CleanupTarget(t: DentalTable, i: nat, faulty: set<string>,
                       ghost rows0: map<string, Record>, ghost index0: map<string, seq<Entry>>)
    returns (c: nat, r: nat)
    requires i < |Targets| && t.Valid()
    requires t.rows == RowsLeft(rows0, i, faulty)
    requires forall j :: i <= j < |Targets| ==> t.Partition(TargetKey(j)) == PartitionOf(index0, TargetKey(j))
    modifies t
    ensures t.Valid()
    ensures t.rows == RowsLeft(rows0, i + 1, faulty)
    ensures forall j :: i + 1 <= j < |Targets| ==> t.Partition(TargetKey(j)) == PartitionOf(index0, TargetKey(j))
    ensures c == |PartitionOf(index0, TargetKey(i))|
    ensures r == |old(t.rows)| - |t.rows| && r <= c
  {
    var kind, lang := Targets[i].0, Targets[i].1;
    assert PartitionKey(kind, lang) == TargetKey(i);
    DoomedSetUntouched(rows0, i, faulty, lang);
    ghost var before := t.rows;
    c, r := CleanupPartition(t, kind, lang, faulty);
    assert t.rows == before - DoomedSet(rows0, TargetKey(i), lang, faulty);
    forall j | i + 1 <= j < |Targets|
      ensures t.Partition(TargetKey(j)) == PartitionOf(index0, TargetKey(j))
    {
      TargetKeysDistinct(i, j);
    }
  }

  /** `news_admin_cleanup_irrelevant`: the six partitions in turn. Exactly the
      irrelevant items of those partitions whose delete does not raise are gone;
      every other item is untouched. */
  method NewsAdminCleanup(t: DentalTable, faulty: set<string>) returns (checked: nat, removed: nat, msg: string)
    requires t.Valid()
    modifies t
    ensures t.Valid()
    ensures t.rows == old(t.rows) - CleanedSet(old(t.rows), |Targets|, faulty)
    ensures checked == CheckedTotal(old(t.index), |Targets|)
    ensures removed == |old(t.rows)| - |t.rows| && removed <= checked
    ensures msg == CleanupMessage(checked, removed)
  {
    ghost var rows0, index0 := t.rows, t.index;
    checked, removed := 0, 0;
    for i := 0 to |Targets|
      invariant t.Valid()
      invariant t.rows == RowsLeft(rows0, i, faulty)
      invariant forall j :: i <= j < |Targets| ==> t.Partition(TargetKey(j)) == PartitionOf(index0, TargetKey(j))
      invariant checked == CheckedTotal(index0, i)
      invariant removed == |rows0| - |t.rows| && removed <= checked
    {
      var c, r := CleanupTarget(t, i, faulty, rows0, index0);
      checked, removed := checked + c, removed + r;
    }
    msg := CleanupMessage(checked, removed);
    RowsLeftIs(rows0, |Targets|, faulty);
  }

  /** An item outside the six partitions survives the cleanup unchanged. */
  lemma OutsideTargetsKept(rows: map<string, Record>, faulty: set<string>, pk: string)
    requires pk in rows && forall i :: 0 <= i < |Targets| ==> rows[pk].gsi1pk != TargetKey(i)
    ensures pk in rows - CleanedSet(rows, |Targets|, faulty)
  {
    CleanedSetIff(rows, |Targets|, faulty, pk);
  }

  /** An item of target partition `i` that is relevant for its language survives. */
  lemma RelevantKept(rows: map<string, Record>, faulty: set<string>, pk: string, i: nat)
    requires i < |Targets| && pk in rows && rows[pk].gsi1pk == TargetKey(i)
    requires IsRelevant(rows[pk].title, rows[pk].summary, Targets[i].1)
    ensures pk in rows - CleanedSet(rows, |Targets|, faulty)
  {
    CleanedSetIff(rows, |Targets|, faulty, pk);
    if pk in CleanedSet(rows, |Targets|, faulty) {
      var j :| 0 <= j < |Targets| && rows[pk].gsi1pk == TargetKey(j) && Doomed(rows[pk], Targets[j].1, faulty);
      if i < j {
        TargetKeysDistinct(i, j);
      } else if j < i {
        TargetKeysDistinct(j, i);
      }
    }
  }

  /** An irrelevant item of a target partition whose delete does not raise is removed. */
  lemma IrrelevantGone(rows: map<string, Record>, faulty: set<string>, pk: string, i: nat)
    requires i < |Targets| && pk in rows && rows[pk].gsi1pk == TargetKey(i)
    requires !IsRelevant(rows[pk].title, rows[pk].summary, Targets[i].1) && rows[pk].pk !in faulty
    ensures pk !in rows - CleanedSet(rows, |Targets|, faulty)
  {
    CleanedSetIff(rows, |Targets|, faulty, pk);
    assert rows[pk].gsi1pk == TargetKey(i) && Doomed(rows[pk], Targets[i].1, faulty);
  }
}
