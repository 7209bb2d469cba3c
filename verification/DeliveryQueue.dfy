// The steps that shrink the Edge's queue keep the delivery invariant: acknowledgement, and the
// retention purge, which may take rows that are in flight.

module DeliveryQueue {
  import opened Outcomes
  import opened Sequences
  import opened EdgeBuffer
  import opened MesLedger
  import opened Delivery
  import opened DeliveryInvariant
  import opened DeliverySteps
  import opened DeliveryIngest

  lemma FilteredFlags(rows: seq<Row>, link: Link, keep: Row -> bool, h: History, g: History)
    requires FlagsOk(rows, link, h) && g.born == h.born && g.failures == h.failures
    ensures FlagsOk(Filter(rows, keep), link, g)
  {
    var kept := Filter(rows, keep);
    forall m | 0 <= m < |kept|
      ensures RowFlagsOk(g, kept[m]) && (link == Down ==> kept[m].buffered)
    {
      assert kept[m] in kept && kept[m] in rows;
      var n :| 0 <= n < |rows| && rows[n] == kept[m];
      assert RowFlagsOk(h, rows[n]);
    }
  }

  // ---------- acknowledgement ----------

  lemma AckedPending(s: State, batch: seq<Row>, items: seq<Item>)
    requires RowsOk(s.hist.born, s.queue.rows) && InFlightOk(batch, items, s.queue, s.hist)
    ensures PendingIds(Filter(s.queue.rows, (r: Row) => r.id !in RowIds(batch))) == PendingIds(s.queue.rows) - Ids(items)
  {
    hide RowsOk, RowOk, PendingIds;
    var rows := s.queue.rows;
    var keep := (r: Row) => r.id !in RowIds(batch);
    RowsFiltered(s.hist.born, rows, keep);
    forall i | i in PendingIds(rows)
      ensures i in PendingIds(Filter(rows, keep)) <==> i !in Ids(items)
    {
      var t := PendingRow(s.hist.born, rows, i);
      FilteredPending(s.hist.born, rows, keep, i, t);
      InFlightIff(batch, items, s.queue, s.hist, i);
    }
  }

  lemma InFlightIff(batch: seq<Row>, items: seq<Item>, q: Queue, h: History, i: nat)
    requires InFlightOk(batch, items, q, h) && 1 <= i <= |h.born|
    ensures i in Ids(items) <==> h.born[i - 1].row in RowIds(batch)
  {
    assert h.born[i - 1].row in RowIds(batch) ==> i - 1 + 1 in Ids(items);
  }

  lemma CountsAfterAck(pending: set<nat>, taken: set<nat>, n: nat)
    requires |taken| == n
    ensures |pending - taken| + n == |pending| + |taken - pending|
  {
    assert pending == (pending - taken) + (pending * taken);
    assert taken == (taken - pending) + (pending * taken);
  }

  lemma AckedCovered(born: seq<Birth>, rows: seq<Row>, fewer: seq<Row>, ids: set<nat>, settled: set<nat>)
    requires Covered(born, rows, settled) && PendingIds(fewer) == PendingIds(rows) - ids && ids <= settled
    ensures Covered(born, fewer, settled)
  {
    forall i | 1 <= i <= |born|
      ensures i in PendingIds(fewer) + settled
    {
      assert i in PendingIds(rows) + settled;
    }
  }

  lemma AckedCounts(q: Queue, p: Queue, h: History, g: History, ids: set<nat>, n: nat, again: nat)
    requires CountsOk(q, h) && |ids| == n && again <= n
    requires PendingIds(p.rows) == PendingIds(q.rows) - ids && p.seqNo == q.seqNo && p.purged == q.purged
    requires p.sent == q.sent + n && p.resent == q.resent + again
    requires g.doubled == h.doubled + |ids - PendingIds(q.rows)|
    ensures CountsOk(p, g)
  {
    CountsAfterAck(PendingIds(q.rows), ids, n);
  }

  lemma FewerPending(born: seq<Birth>, q: Queue, p: Queue, lost: set<nat>)
    requires p.seqNo == q.seqNo && p.nextRow == q.nextRow && PendingIds(p.rows) <= PendingIds(q.rows)
    ensures BornOk(born, q) ==> BornOk(born, p)
    ensures LostOk(born, q.rows, lost) ==> LostOk(born, p.rows, lost)
  {
  }

  lemma AcknowledgeKeeps(c: Config, s: State)
    requires Inv(c, s)
    ensures Inv(c, Acknowledged(s))
  {
    hide BornOk, RowsOk, Covered, LostOk, NetOk, LogOk, LedgerOk, CountsOk, FlagsOk, PendingIds, Payload,
         InFlightOk, Genuine, Closed, Whole, DistinctIds, ResentCount, AllAccepted, Strangers, Ids;
    var t := Acknowledged(s);
    if s.sender.Waiting? && s.sender.req in s.answers
       && AllAccepted(Payload(s.sender.batch), s.answers[s.sender.req]) {
      var h, batch, q := s.hist, s.sender.batch, s.sender.req;
      var items := Payload(batch);
      assert s.net[q] == items;
      RequestAt(h.born, s.net, Settled(c, h), q);
      IdsCount(items);
      AckedPending(s, batch, items);
      RowsFiltered(h.born, s.queue.rows, (r: Row) => r.id !in RowIds(batch));
      AckedCovered(h.born, s.queue.rows, t.queue.rows, Ids(items), Settled(c, h));
      assert ResentCount(batch) <= |items| by { InFlightResent(batch, items, s.queue, h); }
      AckedCounts(s.queue, t.queue, h, t.hist, Ids(items), |items|, ResentCount(batch));
      FewerPending(h.born, s.queue, t.queue, h.lost);
      LinkNotDown(s.queue.rows, s.link, h);
      FilteredFlags(s.queue.rows, Up, (r: Row) => r.id !in RowIds(batch), h, t.hist);
      SameHistory(c, s.ledger, s.net, s.answers, h, t.hist);
    }
  }

  lemma InFlightResent(batch: seq<Row>, items: seq<Item>, q: Queue, h: History)
    requires InFlightOk(batch, items, q, h)
    ensures ResentCount(batch) <= |items|
  {
  }

  /** The answer names every message of the request, so the sender's check never refuses it. */
  lemma AnswerAcceptsAll(c: Config, s: State)
    requires Inv(c, s) && s.sender.Waiting? && s.sender.req in s.answers
    ensures AllAccepted(Payload(s.sender.batch), s.answers[s.sender.req])
  {
    var items := Payload(s.sender.batch);
    assert s.answers[s.sender.req] == MessageIds(items);
    hide Inv, Payload;
    forall i | 0 <= i < |items|
      ensures items[i].id in MessageIds(items)
    {
      assert MessageIds(items)[i] == items[i].id;
    }
  }

  // ---------- the retention purge ----------

  /** What the purge keeps and what it deletes are apart, and together all that was pending. */
  lemma PurgedPending(born: seq<Birth>, rows: seq<Row>, cut: int)
    requires RowsOk(born, rows)
    ensures var kept := Filter(rows, (r: Row) => r.created >= cut);
            PendingIds(kept) == PendingIds(rows) - PendingIds(Old(rows, cut))
    ensures PendingIds(Old(rows, cut)) <= PendingIds(rows)
  {
    hide RowsOk, RowOk, PendingIds;
    var keep, drop := (r: Row) => r.created >= cut, (r: Row) => r.created < cut;
    RowsFiltered(born, rows, keep);
    RowsFiltered(born, rows, drop);
    forall i | i in PendingIds(rows)
      ensures i in PendingIds(Filter(rows, keep)) <==> i !in PendingIds(Old(rows, cut))
    {
      var t := PendingRow(born, rows, i);
      FilteredPending(born, rows, keep, i, t);
      FilteredPending(born, rows, drop, i, t);
    }
  }

  lemma PendingWhole(born: seq<Birth>, rows: seq<Row>)
    requires RowsOk(born, rows)
    ensures Whole(born, PendingIds(rows)) && Within(PendingIds(rows), |born|)
  {
    hide RowsOk, RowOk, PendingIds;
    forall i: nat, j: nat | SameRow(born, i, j) && i in PendingIds(rows)
      ensures j in PendingIds(rows)
    {
      var t := PendingRow(born, rows, i);
      MessageOfRow(born, t, j);
      var m :| 0 <= m < |rows| && rows[m] == t;
    }
    forall i | i in PendingIds(rows)
      ensures 1 <= i <= |born|
    {
      var t := PendingRow(born, rows, i);
    }
  }

  lemma LostMore(born: seq<Birth>, rows: seq<Row>, fewer: seq<Row>, lost: set<nat>, taken: set<nat>)
    requires LostOk(born, rows, lost) && PendingIds(fewer) == PendingIds(rows) - taken
    requires Whole(born, taken) && Within(taken, |born|)
    ensures LostOk(born, fewer, lost + taken)
  {
    hide PendingIds;
    forall i: nat, j: nat | SameRow(born, i, j) && i in lost + taken
      ensures j in lost + taken
    {
    }
  }

  lemma PurgedCounts(q: Queue, p: Queue, h: History, g: History, taken: set<nat>)
    requires CountsOk(q, h) && PendingIds(p.rows) == PendingIds(q.rows) - taken && taken <= PendingIds(q.rows)
    requires p == q.(rows := p.rows, purged := q.purged + |taken|) && g.doubled == h.doubled
    ensures CountsOk(p, g)
  {
  }

  lemma PurgedCovered(born: seq<Birth>, rows: seq<Row>, fewer: seq<Row>, taken: set<nat>, settled: set<nat>, wider: set<nat>)
    requires Covered(born, rows, settled) && PendingIds(fewer) == PendingIds(rows) - taken
    requires settled + taken <= wider
    ensures Covered(born, fewer, wider)
  {
    forall i | 1 <= i <= |born|
      ensures i in PendingIds(fewer) + wider
    {
      assert i in PendingIds(rows) + settled;
    }
  }

  /** Purged rows that are in flight are pending no more, but lost. */
  lemma InFlightPurged(batch: seq<Row>, items: seq<Item>, q: Queue, p: Queue, h: History, g: History)
    requires InFlightOk(batch, items, q, h) && p.nextRow == q.nextRow && g.born == h.born
    requires PendingIds(q.rows) + h.lost <= PendingIds(p.rows) + g.lost
    ensures InFlightOk(batch, items, p, g)
  {
    forall x | x in Ids(items)
      ensures 1 <= x <= |g.born| && g.born[x - 1].row in RowIds(batch) && x in PendingIds(p.rows) + g.lost
    {
      assert x in PendingIds(q.rows) + h.lost;
    }
  }

  lemma PurgedShape(born: seq<Birth>, q: Queue, cut: int)
    requires RowsOk(born, q.rows)
    ensures Purged(q, cut) == q.(rows := Filter(q.rows, (r: Row) => r.created >= cut),
                                 purged := q.purged + |PendingIds(Old(q.rows, cut))|)
  {
    RowsDistinct(born, q.rows);
    PurgeDeletesTheOld(q, cut);
    RowsFiltered(born, q.rows, (r: Row) => r.created < cut);
    PendingCount(born, Old(q.rows, cut));
  }

  lemma LogLoses(c: Config, h: History, g: History, ledger: seq<Item>, net: seq<seq<Item>>, answers: map<nat, seq<nat>>)
    requires g == h.(lost := g.lost) && h.lost <= g.lost
    ensures LogOk(c, h) ==> LogOk(c, g)
    ensures LedgerOk(ledger, h) ==> LedgerOk(ledger, g)
    ensures AnswersOk(c, net, answers, h) ==> AnswersOk(c, net, answers, g)
    ensures Settled(c, h) <= Settled(c, g) && g.lost <= Settled(c, g)
  {
    if LogOk(c, h) { ClosedWidens(h.born, h.log, Excused(c, h), Excused(c, g)); }
  }

  lemma EdgePurgeKeeps(c: Config, s: State, cut: int)
    requires Inv(c, s)
    ensures Inv(c, PurgedAtEdge(s, cut))
  {
    hide BornOk, RowsOk, Covered, LostOk, NetOk, LogOk, LedgerOk, AnswersOk, CountsOk, FlagsOk, PendingIds, Payload,
         InFlightOk, Whole, Settled, Old, Purged;
    var h, t := s.hist, PurgedAtEdge(s, cut);
    var taken := PendingIds(Old(s.queue.rows, cut));
    PurgedShape(h.born, s.queue, cut);
    PurgedPending(h.born, s.queue.rows, cut);
    RowsFiltered(h.born, s.queue.rows, (r: Row) => r.created >= cut);
    OldWhole(h.born, s.queue.rows, cut);
    LogLoses(c, h, t.hist, s.ledger, s.net, s.answers);
    LostMore(h.born, s.queue.rows, t.queue.rows, h.lost, taken);
    PurgedCovered(h.born, s.queue.rows, t.queue.rows, taken, Settled(c, h), Settled(c, t.hist));
    NetWidens(h.born, s.net, Settled(c, h), Settled(c, t.hist));
    PurgedCounts(s.queue, t.queue, h, t.hist, taken);
    FewerPending(h.born, s.queue, t.queue, h.lost);
    FilteredFlags(s.queue.rows, s.link, (r: Row) => r.created >= cut, h, t.hist);
    if s.sender.Waiting? {
      InFlightPurged(s.sender.batch, s.net[s.sender.req], s.queue, t.queue, h, t.hist);
    }
  }

  lemma OldWhole(born: seq<Birth>, rows: seq<Row>, cut: int)
    requires RowsOk(born, rows)
    ensures Whole(born, PendingIds(Old(rows, cut))) && Within(PendingIds(Old(rows, cut)), |born|)
  {
    RowsFiltered(born, rows, (r: Row) => r.created < cut);
    PendingWhole(born, Old(rows, cut));
  }
}
