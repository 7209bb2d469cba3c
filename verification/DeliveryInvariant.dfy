// Every step of the delivery protocol keeps the invariant.

module DeliveryInvariant {
  import opened Outcomes
  import opened Sequences
  import opened EdgeBuffer
  import opened MesLedger
  import opened Delivery

  // ---------- growth of the birth record ----------

  /** More messages are born, all into rows not used before. */
  ghost predicate Grows(born: seq<Birth>, more: seq<Birth>, row: nat) {
    && |born| <= |more| && more[..|born|] == born
    && (forall k :: 0 <= k < |born| ==> born[k].row < row)
    && (forall k :: |born| <= k < |more| ==> more[k].row == row)
  }

  ghost predicate Within(ids: set<nat>, n: nat) {
    forall i :: i in ids ==> 1 <= i <= n
  }

  lemma WholeGrows(born: seq<Birth>, more: seq<Birth>, row: nat, ids: set<nat>)
    requires Grows(born, more, row) && Whole(born, ids) && Within(ids, |born|)
    ensures Whole(more, ids)
  {
    forall i: nat, j: nat | SameRow(more, i, j) && i in ids
      ensures j in ids
    {
      assert more[i - 1] == born[i - 1];
      assert SameRow(born, i, j) by { if j <= |born| { assert more[j - 1] == born[j - 1]; } }
    }
  }

  lemma GenuineGrows(born: seq<Birth>, more: seq<Birth>, row: nat, items: seq<Item>)
    requires Grows(born, more, row) && Genuine(born, items)
    ensures Genuine(more, items) && Within(Ids(items), |born|)
  {
    forall m | 0 <= m < |items|
      ensures more[items[m].id - 1] == born[items[m].id - 1]
    {
    }
  }

  lemma ClosedGrows(born: seq<Birth>, more: seq<Birth>, row: nat, items: seq<Item>, base: set<nat>, wider: set<nat>)
    requires Grows(born, more, row) && Genuine(born, items) && Closed(born, items, base) && base <= wider
    ensures Closed(more, items, wider)
  {
    forall m: nat, i: nat | 0 <= m < |items| && Earlier(more, i, items[m].id)
      ensures i in Ids(items[..m]) + wider
    {
      assert more[i - 1] == born[i - 1] && more[items[m].id - 1] == born[items[m].id - 1];
      assert Earlier(born, i, items[m].id);
    }
  }

  lemma RowGrows(born: seq<Birth>, more: seq<Birth>, row: nat, r: Row)
    requires Grows(born, more, row) && RowOk(born, r) && r.id < row
    ensures RowOk(more, r)
  {
    forall m | 0 <= m < |r.items|
      ensures more[r.items[m].id - 1] == born[r.items[m].id - 1]
    {
    }
    forall k | 0 <= k < |more| && more[k].row == r.id
      ensures k + 1 in Ids(r.items)
    {
      assert more[k] == born[k];
    }
  }

  lemma StrangersGrow(born: seq<Birth>, more: seq<Birth>, row: nat, known: set<string>)
    requires Grows(born, more, row)
    ensures Strangers(born, known) <= Strangers(more, known)
  {
    forall i | i in Strangers(born, known)
      ensures i in Strangers(more, known)
    {
      assert more[i - 1] == born[i - 1];
    }
  }

  lemma RequestGrows(born: seq<Birth>, more: seq<Birth>, row: nat, items: seq<Item>, base: set<nat>, wider: set<nat>)
    requires Grows(born, more, row) && RequestOk(born, items, base) && base <= wider
    ensures RequestOk(more, items, wider)
  {
    GenuineGrows(born, more, row, items);
    ClosedGrows(born, more, row, items, base, wider);
    WholeGrows(born, more, row, Ids(items));
  }

  lemma ClosedWidens(born: seq<Birth>, items: seq<Item>, base: set<nat>, wider: set<nat>)
    requires Closed(born, items, base) && base <= wider
    ensures Closed(born, items, wider)
  {
    forall m: nat, i: nat | 0 <= m < |items| && Earlier(born, i, items[m].id)
      ensures i in Ids(items[..m]) + wider
    {
    }
  }

  lemma NetWidens(born: seq<Birth>, net: seq<seq<Item>>, base: set<nat>, wider: set<nat>)
    requires NetOk(born, net, base) && base <= wider
    ensures NetOk(born, net, wider)
  {
    forall q | 0 <= q < |net|
      ensures RequestOk(born, net[q], wider)
    {
      ClosedWidens(born, net[q], base, wider);
    }
  }

  // ---------- pending messages and rows ----------

  lemma PendingSplit(rows: seq<Row>, r: Row)
    ensures PendingIds(rows + [r]) == PendingIds(rows) + Ids(r.items)
  {
    assert (rows + [r])[..|rows + [r]| - 1] == rows;
  }

  lemma PendingOfSubset(rows: seq<Row>, all: seq<Row>)
    requires forall r :: r in rows ==> r in all
    ensures PendingIds(rows) <= PendingIds(all)
  {
    forall x | x in PendingIds(rows)
      ensures x in PendingIds(all)
    {
      var m :| 0 <= m < |rows| && x in Ids(rows[m].items);
      assert rows[m] in all;
      var n :| 0 <= n < |all| && all[n] == rows[m];
    }
  }

  /** In a good queue a message determines its row. */
  lemma PendingRow(born: seq<Birth>, rows: seq<Row>, i: nat) returns (r: Row)
    requires RowsOk(born, rows) && i in PendingIds(rows)
    ensures r in rows && RowOk(born, r) && i in Ids(r.items)
    ensures 1 <= i <= |born| && born[i - 1].row == r.id && born[i - 1].priority == r.priority
  {
    var m :| 0 <= m < |rows| && i in Ids(rows[m].items);
    r := rows[m];
    var k :| 0 <= k < |r.items| && r.items[k].id == i;
  }

  lemma RowsDistinct(born: seq<Birth>, rows: seq<Row>)
    requires RowsOk(born, rows)
    ensures DistinctRows(rows)
    ensures forall r :: r in rows ==> RowOk(born, r)
  {
  }

  lemma SameIdSameRow(born: seq<Birth>, rows: seq<Row>, r: Row, t: Row)
    requires RowsOk(born, rows) && r in rows && t in rows && r.id == t.id
    ensures r == t
  {
    var m :| 0 <= m < |rows| && rows[m] == r;
    var n :| 0 <= n < |rows| && rows[n] == t;
    assert m == n;
  }

  /** Removing rows keeps the rest good. */
  lemma RowsFiltered(born: seq<Birth>, rows: seq<Row>, keep: Row -> bool)
    requires RowsOk(born, rows)
    ensures RowsOk(born, Filter(rows, keep))
    ensures PendingIds(Filter(rows, keep)) <= PendingIds(rows)
  {
    hide RowOk, PendingIds;
    var kept := Filter(rows, keep);
    FilterKeepsOrder(rows, keep, (a: Row, b: Row) => a.id < b.id);
    assert forall m, n :: 0 <= m < n < |kept| ==> kept[m].id < kept[n].id;
    RowsDistinct(born, rows);
    forall m | 0 <= m < |kept|
      ensures RowOk(born, kept[m])
    {
      assert kept[m] in kept;
    }
    PendingOfSubset(kept, rows);
  }

  /** A message stays pending exactly when its row is kept. */
  lemma FilteredPending(born: seq<Birth>, rows: seq<Row>, keep: Row -> bool, i: nat, t: Row)
    requires RowsOk(born, rows) && t in rows && i in Ids(t.items)
    ensures i in PendingIds(Filter(rows, keep)) <==> keep(t)
  {
    hide RowOk;
    var kept := Filter(rows, keep);
    if i in PendingIds(kept) {
      var m :| 0 <= m < |kept| && i in Ids(kept[m].items);
      assert kept[m] in kept;
      MessageInOneRow(born, rows, kept[m], t, i);
    }
    if keep(t) {
      var m :| 0 <= m < |kept| && kept[m] == t;
    }
  }

  lemma MessageInOneRow(born: seq<Birth>, rows: seq<Row>, r: Row, t: Row, i: nat)
    requires RowsOk(born, rows) && r in rows && t in rows && i in Ids(r.items) && i in Ids(t.items)
    ensures r == t
  {
    RowsDistinct(born, rows);
    var k :| 0 <= k < |r.items| && r.items[k].id == i;
    var l :| 0 <= l < |t.items| && t.items[l].id == i;
    SameIdSameRow(born, rows, r, t);
  }

  /** The rows of a good queue hold as many items as there are pending messages. */
  lemma {:induction false} PendingCount(born: seq<Birth>, rows: seq<Row>)
    requires RowsOk(born, rows)
    ensures ItemCount(rows) == |PendingIds(rows)|
  {
    hide RowsOk, RowOk;
    if rows != [] {
      var n := |rows| - 1;
      RowsPrefix(born, rows, n);
      PendingCount(born, rows[..n]);
      RowIdsCount(born, rows[n]);
      LastRowApart(born, rows);
      var before, last := PendingIds(rows[..n]), Ids(rows[n].items);
      assert PendingIds(rows) == before + last;
      hide PendingIds;
      assert before * last == {};
    }
  }

  lemma RowsPrefix(born: seq<Birth>, rows: seq<Row>, n: nat)
    requires RowsOk(born, rows) && n <= |rows|
    ensures RowsOk(born, rows[..n]) && forall m :: n <= m < |rows| ==> RowOk(born, rows[m])
  {
  }

  lemma LastRowApart(born: seq<Birth>, rows: seq<Row>)
    requires RowsOk(born, rows) && rows != []
    ensures PendingIds(rows[..|rows| - 1]) !! Ids(rows[|rows| - 1].items)
  {
    var n := |rows| - 1;
    forall i | i in PendingIds(rows[..n])
      ensures i !in Ids(rows[n].items)
    {
      var m :| 0 <= m < n && i in Ids(rows[..n][m].items);
      assert rows[..n][m] == rows[m] && rows[m] in rows && rows[n] in rows;
      if i in Ids(rows[n].items) { MessageInOneRow(born, rows, rows[m], rows[n], i); }
    }
  }

  lemma RowIdsCount(born: seq<Birth>, r: Row)
    requires RowOk(born, r)
    ensures |Ids(r.items)| == |r.items|
  {
    IdsCount(r.items);
  }

  lemma {:induction false} IdsCount(items: seq<Item>)
    requires DistinctIds(items)
    ensures |Ids(items)| == |items|
  {
    if items != [] {
      var n := |items| - 1;
      IdsCount(items[..n]);
      assert items == items[..n] + [items[n]];
      IdsAppend(items[..n], [items[n]]);
      assert [items[n]][0] == items[n];
      assert Ids([items[n]]) == {items[n].id};
      assert items[n].id !in Ids(items[..n]);
    }
  }
}
