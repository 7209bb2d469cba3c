// One lemma per kind of step: each action of the delivery protocol keeps the invariant.

module DeliverySteps {
  import opened Outcomes
  import opened Sequences
  import opened EdgeBuffer
  import opened MesLedger
  import opened Delivery
  import opened DeliveryInvariant

  // ---------- sending ----------

  lemma FlaggedIds(r: Row)
    ensures Ids(Flagged(r)) == Ids(r.items)
  {
    forall x
      ensures x in Ids(Flagged(r)) <==> x in Ids(r.items)
    {
      if x in Ids(r.items) {
        var k :| 0 <= k < |r.items| && r.items[k].id == x;
        assert Flagged(r)[k].id == x;
      }
    }
  }

  lemma {:induction false} PayloadIds(batch: seq<Row>)
    ensures Ids(Payload(batch)) == PendingIds(batch)
    ensures ResentCount(batch) <= |Payload(batch)|
  {
    if batch != [] {
      var n := |batch| - 1;
      PayloadIds(batch[..n]);
      FlaggedIds(batch[n]);
      IdsAppend(Payload(batch[..n]), Flagged(batch[n]));
    }
  }

  /** The rows of a batch, and everything in front of each of them, come from the front of the queue. */
  ghost predicate FrontOf(batch: seq<Row>, rows: seq<Row>) {
    && Sorted(batch)
    && (forall r :: r in batch ==> r in rows)
    && (forall m: nat, r :: 0 <= m < |batch| && r in rows && Before(r, batch[m]) ==> r in batch[..m])
  }

  lemma PrefixIsFront(all: seq<Row>, batch: seq<Row>, rows: seq<Row>, m: nat, r: Row)
    requires Sorted(all) && batch <= all && m < |batch| && r in all && Before(r, batch[m])
    ensures r in batch[..m]
  {
    var l :| 0 <= l < |all| && all[l] == r;
    assert all[m] == batch[m];
    assert l < m;
    assert batch[..m][l] == r;
  }

  lemma BatchIsPrefix(rows: seq<Row>, max: int)
    ensures Batch(rows, max) <= Ordered(rows)
  {
  }

  lemma BatchIsFront(rows: seq<Row>, max: int)
    requires DistinctRows(rows)
    ensures FrontOf(Batch(rows, max), rows)
  {
    hide Batch, Ordered, GreedyLength, Before, DistinctRows;
    var all, batch := Ordered(rows), Batch(rows, max);
    OrderedIsSorted(rows);
    BatchIsPrefix(rows, max);
    forall i, j | 0 <= i < j < |batch|
      ensures Before(batch[i], batch[j])
    {
      assert batch[i] == all[i] && batch[j] == all[j];
    }
    forall r | r in batch
      ensures r in rows
    {
      assert r in all;
    }
    forall m: nat, r | 0 <= m < |batch| && r in rows && Before(r, batch[m])
      ensures r in batch[..m]
    {
      PrefixIsFront(all, batch, rows, m, r);
    }
  }

  lemma FrontPrefix(batch: seq<Row>, rows: seq<Row>, n: nat)
    requires FrontOf(batch, rows) && n <= |batch|
    ensures FrontOf(batch[..n], rows)
  {
    forall m: nat, r | 0 <= m < n && r in rows && Before(r, batch[..n][m])
      ensures r in batch[..n][..m]
    {
      assert batch[..n][..m] == batch[..m];
    }
  }

  lemma {:induction false} PayloadGenuine(born: seq<Birth>, rows: seq<Row>, batch: seq<Row>)
    requires RowsOk(born, rows) && FrontOf(batch, rows)
    requires forall k :: 0 <= k < |born| ==> !born[k].item.resend
    ensures Genuine(born, Payload(batch)) && DistinctIds(Payload(batch))
  {
    if batch != [] {
      var n := |batch| - 1;
      FrontPrefix(batch, rows, n);
      PayloadGenuine(born, rows, batch[..n]);
      RowsDistinct(born, rows);
      var r, before := batch[n], Payload(batch[..n]);
      assert r in batch && r in rows;
      PayloadIds(batch[..n]);
      forall i | i in Ids(before)
        ensures i !in Ids(r.items)
      {
        var m :| 0 <= m < n && i in Ids(batch[..n][m].items);
        assert batch[m] in batch && Before(batch[m], batch[n]);
        if i in Ids(r.items) { MessageInOneRow(born, rows, batch[m], r, i); }
      }
      GenuineAppend(born, before, r);
    }
  }

  lemma GenuineAppend(born: seq<Birth>, before: seq<Item>, r: Row)
    requires Genuine(born, before) && DistinctIds(before) && RowOk(born, r) && Ids(before) !! Ids(r.items)
    requires forall k :: 0 <= k < |born| ==> !born[k].item.resend
    ensures Genuine(born, before + Flagged(r)) && DistinctIds(before + Flagged(r))
  {
    var all := before + Flagged(r);
    forall m | 0 <= m < |all|
      ensures 1 <= all[m].id <= |born| && all[m].(resend := false) == born[all[m].id - 1].item
    {
      if m >= |before| {
        var it := r.items[m - |before|];
        assert all[m] == it.(resend := Flag(r)) && born[it.id - 1].item == it;
      }
    }
    forall l, m | 0 <= l < m < |all|
      ensures all[l].id != all[m].id
    {
      if l < |before| <= m {
        assert before[l].id in Ids(before) && r.items[m - |before|].id in Ids(r.items);
      } else if l >= |before| {
        assert r.items[l - |before|].id < r.items[m - |before|].id;
      }
    }
  }

  lemma EarlierInSameRow(born: seq<Birth>, r: Row, l: nat, i: nat)
    requires RowOk(born, r) && l < |r.items| && i in Ids(r.items) && i < r.items[l].id
    ensures i in Ids(r.items[..l])
  {
    var k :| 0 <= k < |r.items| && r.items[k].id == i;
    assert k < l;
    assert r.items[..l][k].id == i;
  }

  lemma InFrontInPayload(batch: seq<Row>, t: Row, i: nat)
    requires t in batch && i in Ids(t.items)
    ensures i in Ids(Payload(batch))
  {
    PayloadIds(batch);
    var m :| 0 <= m < |batch| && batch[m] == t;
  }

  /** An earlier message of the same priority, if still pending, sits in front of row r or in r itself. */
  lemma EarlierIsInFront(born: seq<Birth>, q: Queue, batch: seq<Row>, l: nat, i: nat)
    requires BornOk(born, q) && RowsOk(born, q.rows) && FrontOf(batch, q.rows) && batch != []
    requires var r := batch[|batch| - 1]; l < |r.items| && Earlier(born, i, r.items[l].id)
    requires i in PendingIds(q.rows)
    ensures i in Ids(Payload(batch[..|batch| - 1])) + Ids(batch[|batch| - 1].items[..l])
  {
    hide RowsOk, RowOk, PendingIds, Payload, FrontOf, Before, DistinctRows;
    var n := |batch| - 1;
    var r := batch[n];
    LastRowOk(born, q.rows, batch);
    RowOfMessage(born, r, l);
    assert born[i - 1].row <= born[r.items[l].id - 1].row;
    hide BornOk;
    var t := PendingRow(born, q.rows, i);
    if t.id == r.id {
      SameIdSameRow(born, q.rows, r, t);
      EarlierInSameRow(born, r, l, i);
    } else {
      FrontHas(batch, q.rows, t);
      InFrontInPayload(batch[..n], t, i);
    }
  }

  lemma LastRowOk(born: seq<Birth>, rows: seq<Row>, batch: seq<Row>)
    requires RowsOk(born, rows) && FrontOf(batch, rows) && batch != []
    ensures batch[|batch| - 1] in rows && RowOk(born, batch[|batch| - 1])
  {
    RowsDistinct(born, rows);
    assert batch[|batch| - 1] in batch;
  }

  lemma RowOfMessage(born: seq<Birth>, r: Row, l: nat)
    requires RowOk(born, r) && l < |r.items|
    ensures 1 <= r.items[l].id <= |born|
    ensures born[r.items[l].id - 1].row == r.id && born[r.items[l].id - 1].priority == r.priority
  {
  }

  lemma FrontHas(batch: seq<Row>, rows: seq<Row>, t: Row)
    requires FrontOf(batch, rows) && batch != [] && t in rows
    requires t.priority == batch[|batch| - 1].priority && t.id < batch[|batch| - 1].id
    ensures t in batch[..|batch| - 1]
  {
    assert Before(t, batch[|batch| - 1]);
  }

  lemma {:induction false} PayloadClosed(born: seq<Birth>, q: Queue, batch: seq<Row>, settled: set<nat>)
    requires BornOk(born, q) && RowsOk(born, q.rows) && FrontOf(batch, q.rows) && Covered(born, q.rows, settled)
    ensures Closed(born, Payload(batch), settled)
  {
    hide BornOk, RowsOk, PendingIds, Covered;
    if batch != [] {
      var n := |batch| - 1;
      FrontPrefix(batch, q.rows, n);
      PayloadClosed(born, q, batch[..n], settled);
      var r, before := batch[n], Payload(batch[..n]);
      var all := before + Flagged(r);
      forall m: nat, i: nat | 0 <= m < |all| && Earlier(born, i, all[m].id)
        ensures i in Ids(all[..m]) + settled
      {
        if m < |before| {
          assert all[..m] == before[..m];
          assert Earlier(born, i, before[m].id);
        } else {
          var l := m - |before|;
          assert i in PendingIds(q.rows) + settled by { CoveredAt(born, q.rows, settled, i); }
          if i !in settled {
            EarlierIsInFront(born, q, batch, l, i);
            assert all[..m] == before + Flagged(r)[..l];
            IdsAppend(before, Flagged(r)[..l]);
            FlaggedPrefixIds(r, l);
          }
        }
      }
    }
  }

  lemma CoveredAt(born: seq<Birth>, rows: seq<Row>, settled: set<nat>, i: nat)
    requires Covered(born, rows, settled) && 1 <= i <= |born|
    ensures i in PendingIds(rows) + settled
  {
  }

  lemma FlaggedPrefixIds(r: Row, l: nat)
    requires l <= |r.items|
    ensures Ids(Flagged(r)[..l]) == Ids(r.items[..l])
  {
    forall x
      ensures x in Ids(Flagged(r)[..l]) <==> x in Ids(r.items[..l])
    {
      if x in Ids(r.items[..l]) {
        var k :| 0 <= k < l && r.items[..l][k].id == x;
        assert Flagged(r)[..l][k].id == x;
      }
      if x in Ids(Flagged(r)[..l]) {
        var k :| 0 <= k < l && Flagged(r)[..l][k].id == x;
        assert r.items[..l][k].id == x;
      }
    }
  }

  lemma MessageOfRow(born: seq<Birth>, r: Row, i: nat)
    requires RowOk(born, r) && 1 <= i <= |born|
    ensures i in Ids(r.items) <==> born[i - 1].row == r.id
  {
    if i in Ids(r.items) {
      var k :| 0 <= k < |r.items| && r.items[k].id == i;
    }
    assert born[i - 1].row == r.id ==> i - 1 + 1 in Ids(r.items);
  }

  /** A batch takes whole rows: its messages are those born into its rows. */
  lemma PayloadRows(born: seq<Birth>, rows: seq<Row>, batch: seq<Row>, i: nat)
    requires RowsOk(born, rows) && (forall r :: r in batch ==> r in rows) && 1 <= i <= |born|
    ensures i in Ids(Payload(batch)) <==> born[i - 1].row in RowIds(batch)
    ensures i in Ids(Payload(batch)) ==> i in PendingIds(rows)
  {
    RowsDistinct(born, rows);
    hide RowsOk, RowOk, Payload, Ids;
    PayloadIds(batch);
    PendingOfSubset(batch, rows);
    if i in PendingIds(batch) {
      var m :| 0 <= m < |batch| && i in Ids(batch[m].items);
      assert batch[m] in batch;
      MessageOfRow(born, batch[m], i);
      assert RowIds(batch)[m] == batch[m].id;
    }
    if born[i - 1].row in RowIds(batch) {
      var m :| 0 <= m < |batch| && RowIds(batch)[m] == born[i - 1].row;
      assert batch[m] in batch;
      MessageOfRow(born, batch[m], i);
    }
  }

  lemma BatchRequestOk(c: Config, s: State)
    requires BornOk(s.hist.born, s.queue) && RowsOk(s.hist.born, s.queue.rows)
    requires Covered(s.hist.born, s.queue.rows, Settled(c, s.hist))
    ensures FrontOf(NextBatch(c, s), s.queue.rows)
    ensures RequestOk(s.hist.born, Payload(NextBatch(c, s)), Settled(c, s.hist))
  {
    var born, q, batch := s.hist.born, s.queue, NextBatch(c, s);
    var items, settled := Payload(batch), Settled(c, s.hist);
    RowsDistinct(born, q.rows);
    BatchIsFront(q.rows, c.batchMax);
    PayloadGenuine(born, q.rows, batch);
    PayloadClosed(born, q, batch, settled);
    hide BornOk, RowsOk, Covered, Settled, Genuine, DistinctIds, Closed, Payload, NextBatch;
    forall i: nat, j: nat | SameRow(born, i, j) && i in Ids(items)
      ensures j in Ids(items)
    {
      PayloadRows(born, q.rows, batch, i);
      PayloadRows(born, q.rows, batch, j);
    }
  }

  lemma NetExtends(born: seq<Birth>, net: seq<seq<Item>>, items: seq<Item>, settled: set<nat>)
    requires NetOk(born, net, settled) && RequestOk(born, items, settled)
    ensures NetOk(born, net + [items], settled)
  {
  }

  lemma SendKeeps(c: Config, s: State)
    requires Inv(c, s)
    ensures Inv(c, StartSend(c, s))
  {
    hide BornOk, RowsOk, Covered, LostOk, NetOk, LogOk, LedgerOk, AnswersOk, SenderOk, CountsOk, FlagsOk, Settled,
         NextBatch, Payload, RequestOk;
    if s.sender == Idle && NextBatch(c, s) != [] {
      var t := StartSend(c, s);
      BatchRequestOk(c, s);
      NetExtends(s.hist.born, s.net, Payload(NextBatch(c, s)), Settled(c, s.hist));
      AnswersStay(c, s, t);
      StartedSenderOk(c, s);
    }
  }

  lemma AnswersStay(c: Config, s: State, t: State)
    requires AnswersOk(c, s.net, s.answers, s.hist) && t.answers == s.answers && t.hist == s.hist && s.net <= t.net
    ensures AnswersOk(c, t.net, t.answers, t.hist)
  {
  }

  lemma StartedSenderOk(c: Config, s: State)
    requires BornOk(s.hist.born, s.queue) && RowsOk(s.hist.born, s.queue.rows)
    requires s.sender == Idle && NextBatch(c, s) != [] && FrontOf(NextBatch(c, s), s.queue.rows)
    requires RequestOk(s.hist.born, Payload(NextBatch(c, s)), Settled(c, s.hist))
    ensures var t := StartSend(c, s); SenderOk(t.sender, t.net, t.queue, t.hist)
  {
    hide NextBatch, Settled, Closed, Whole;
    var t, batch := StartSend(c, s), NextBatch(c, s);
    assert t.net[t.sender.req] == Payload(batch);
    InFlightFromQueue(batch, s.queue, s.hist);
  }

  lemma BatchRowsOlder(batch: seq<Row>, q: Queue, born: seq<Birth>)
    requires BornOk(born, q) && RowsOk(born, q.rows) && forall r :: r in batch ==> r in q.rows
    ensures forall m :: 0 <= m < |batch| ==> batch[m].id < q.nextRow
  {
    RowsDistinct(born, q.rows);
    forall m | 0 <= m < |batch|
      ensures batch[m].id < q.nextRow
    {
      assert batch[m] in batch;
      assert born[batch[m].items[0].id - 1].row == batch[m].id;
    }
  }

  lemma GenuineIds(born: seq<Birth>, items: seq<Item>, x: nat)
    requires Genuine(born, items) && x in Ids(items)
    ensures 1 <= x <= |born|
  {
    var m :| 0 <= m < |items| && items[m].id == x;
  }

  lemma InFlightFromQueue(batch: seq<Row>, q: Queue, h: History)
    requires BornOk(h.born, q) && RowsOk(h.born, q.rows) && Genuine(h.born, Payload(batch))
    requires forall r :: r in batch ==> r in q.rows
    ensures InFlightOk(batch, Payload(batch), q, h)
  {
    hide BornOk, RowsOk, RowOk, Payload, Ids, Genuine, PendingIds, ResentCount, RowIds, TakesAll, TakesOnly;
    PayloadIds(batch);
    BatchRowsOlder(batch, q, h.born);
    BatchTakesAll(h.born, q.rows, batch);
    BatchTakesOnly(h.born, q.rows, batch, PendingIds(q.rows) + h.lost);
  }

  lemma BatchTakesAll(born: seq<Birth>, rows: seq<Row>, batch: seq<Row>)
    requires RowsOk(born, rows) && forall r :: r in batch ==> r in rows
    ensures TakesAll(born, RowIds(batch), Ids(Payload(batch)))
  {
    hide RowsOk, RowOk, Payload, Ids, RowIds;
    forall k | 0 <= k < |born| && born[k].row in RowIds(batch)
      ensures k + 1 in Ids(Payload(batch))
    {
      PayloadRows(born, rows, batch, k + 1);
    }
  }

  lemma BatchTakesOnly(born: seq<Birth>, rows: seq<Row>, batch: seq<Row>, owed: set<nat>)
    requires RowsOk(born, rows) && Genuine(born, Payload(batch)) && forall r :: r in batch ==> r in rows
    requires PendingIds(rows) <= owed
    ensures TakesOnly(born, RowIds(batch), Ids(Payload(batch)), owed)
  {
    hide RowsOk, RowOk, Payload, Genuine, RowIds, PendingIds;
    forall x | x in Ids(Payload(batch))
      ensures 1 <= x <= |born| && born[x - 1].row in RowIds(batch) && x in owed
    {
      GenuineIds(born, Payload(batch), x);
      PayloadRows(born, rows, batch, x);
    }
  }

  // ---------- failures, restarts ----------

  lemma MarkedRows(born: seq<Birth>, rows: seq<Row>)
    requires RowsOk(born, rows)
    ensures RowsOk(born, Marked(rows)) && PendingIds(Marked(rows)) == PendingIds(rows)
  {
    var marked := Marked(rows);
    forall m | 0 <= m < |marked|
      ensures RowOk(born, marked[m])
    {
      assert RowOk(born, rows[m]);
    }
    forall x
      ensures x in PendingIds(marked) <==> x in PendingIds(rows)
    {
      if x in PendingIds(rows) {
        var m :| 0 <= m < |rows| && x in Ids(rows[m].items);
        assert x in Ids(marked[m].items);
      }
    }
  }

  lemma MarkedFlags(rows: seq<Row>, link: Link, h: History)
    requires FlagsOk(rows, link, h)
    ensures FlagsOk(Marked(rows), Down, h.(failures := h.failures + 1))
  {
    forall m | 0 <= m < |rows|
      ensures RowFlagsOk(h.(failures := h.failures + 1), Marked(rows)[m])
    {
      assert RowFlagsOk(h, rows[m]);
    }
  }

  /** What depends on the queue only through its pending messages and counters. */
  lemma SamePending(born: seq<Birth>, q: Queue, p: Queue, lost: set<nat>, settled: set<nat>, h: History, g: History)
    requires PendingIds(p.rows) == PendingIds(q.rows) && p == q.(rows := p.rows) && g.doubled == h.doubled
    ensures BornOk(born, q) ==> BornOk(born, p)
    ensures Covered(born, q.rows, settled) ==> Covered(born, p.rows, settled)
    ensures LostOk(born, q.rows, lost) ==> LostOk(born, p.rows, lost)
    ensures CountsOk(q, h) ==> CountsOk(p, g)
  {
    hide PendingIds;
  }

  lemma FailKeeps(c: Config, s: State)
    requires Inv(c, s)
    ensures Inv(c, Failed(s))
  {
    hide BornOk, RowsOk, Covered, LostOk, NetOk, LogOk, LedgerOk, AnswersOk, CountsOk, FlagsOk, PendingIds, Marked, Settled;
    MarkedRows(s.hist.born, s.queue.rows);
    MarkedFlags(s.queue.rows, s.link, s.hist);
    SamePending(s.hist.born, s.queue, Failed(s).queue, s.hist.lost, Settled(c, s.hist), s.hist,
                Failed(s).hist);
    SameHistory(c, s.ledger, s.net, s.answers, s.hist, Failed(s).hist);
  }

  /** The counters of the history matter only to the flags and the accounts. */
  lemma SameHistory(c: Config, ledger: seq<Item>, net: seq<seq<Item>>, answers: map<nat, seq<nat>>, h: History, g: History)
    requires g == h.(failures := g.failures, doubled := g.doubled)
    ensures Settled(c, g) == Settled(c, h)
    ensures LogOk(c, h) ==> LogOk(c, g)
    ensures LedgerOk(ledger, h) ==> LedgerOk(ledger, g)
    ensures AnswersOk(c, net, answers, h) ==> AnswersOk(c, net, answers, g)
  {
  }

  lemma LinkNotDown(rows: seq<Row>, link: Link, h: History)
    requires FlagsOk(rows, link, h)
    ensures FlagsOk(rows, Unknown, h) && FlagsOk(rows, Up, h)
  {
  }

  lemma RestartKeeps(c: Config, s: State)
    requires Inv(c, s)
    ensures Inv(c, s.(sender := Idle, link := Unknown, mdNg := map[]))
  {
    LinkNotDown(s.queue.rows, s.link, s.hist);
    hide BornOk, RowsOk, Covered, LostOk, NetOk, LogOk, LedgerOk, AnswersOk, CountsOk, FlagsOk;
  }
}
