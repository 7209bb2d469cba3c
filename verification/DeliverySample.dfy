// A sample entering the queue keeps the delivery invariant.

module DeliverySample {
  import opened Outcomes
  import opened Sequences
  import opened EdgeBuffer
  import opened MesLedger
  import opened Delivery
  import opened DeliveryInvariant
  import opened DeliveryIngest

  function NewRow(s: State, sample: Sample, now: int): Row {
    Row(s.queue.nextRow, Priority(s.mdNg, sample), now, 0, s.link == Down,
        Numbered(ToRawItems(sample), s.queue.seqNo + 1))
  }

  /** The births of the messages of a new row. */
  ghost predicate Enters(born: seq<Birth>, more: seq<Birth>, q: Queue, r: Row, failures: nat, down: bool) {
    && |born| == q.seqNo && r.id == q.nextRow && r.items != []
    && more == born + Births(r.items, r.id, r.priority, failures, down)
    && (forall m :: 0 <= m < |r.items| ==> r.items[m].id == q.seqNo + 1 + m && !r.items[m].resend)
    && (forall l, m :: 0 <= l < m < |r.items| ==> r.items[l].equip == r.items[m].equip && r.items[l].ts == r.items[m].ts)
  }

  lemma SampleShape(c: Config, s: State, sample: Sample, now: int)
    requires BornOk(s.hist.born, s.queue) && sample.readings != []
    ensures var t, r := TakeSample(s, sample, now), NewRow(s, sample, now);
            && Enters(s.hist.born, t.hist.born, s.queue, r, s.hist.failures, s.link == Down)
            && t.queue == s.queue.(rows := s.queue.rows + [r], nextRow := s.queue.nextRow + 1,
                                   seqNo := s.queue.seqNo + |r.items|)
            && r.attempts == 0 && r.buffered == (s.link == Down)
            && t == s.(queue := t.queue, mdNg := t.mdNg, hist := s.hist.(born := t.hist.born))
  {
  }

  lemma EntersAt(born: seq<Birth>, more: seq<Birth>, q: Queue, r: Row, failures: nat, down: bool, k: nat)
    requires Enters(born, more, q, r, failures, down) && |born| <= k < |more|
    ensures |more| == |born| + |r.items|
    ensures more[k] == Birth(r.items[k - |born|], r.id, r.priority, failures, down)
    ensures more[k].item.id == k + 1 && !more[k].item.resend
  {
    var births := Births(r.items, r.id, r.priority, failures, down);
    assert more[k] == births[k - |born|];
  }

  lemma EntersGrows(born: seq<Birth>, more: seq<Birth>, q: Queue, r: Row, failures: nat, down: bool)
    requires BornOk(born, q) && Enters(born, more, q, r, failures, down)
    ensures Grows(born, more, r.id) && |more| == |born| + |r.items|
  {
    assert more[..|born|] == born;
    forall k | |born| <= k < |more|
      ensures more[k].row == r.id
    {
      EntersAt(born, more, q, r, failures, down, k);
    }
  }

  lemma EntersBorn(born: seq<Birth>, more: seq<Birth>, q: Queue, p: Queue, r: Row, failures: nat, down: bool)
    requires BornOk(born, q) && Enters(born, more, q, r, failures, down)
    requires p.nextRow == q.nextRow + 1 && p.seqNo == q.seqNo + |r.items|
    ensures BornOk(more, p)
  {
    EntersGrows(born, more, q, r, failures, down);
    forall k | |born| <= k < |more|
      ensures more[k].item.id == k + 1 && !more[k].item.resend && more[k].row == r.id
    {
      EntersAt(born, more, q, r, failures, down, k);
    }
    forall k | 0 <= k < |born|
      ensures more[k] == born[k]
    {
      assert more[..|born|][k] == born[k];
    }
    EntersLength(born, more, q, r, failures, down);
    forall i: nat, j: nat | SameRow(more, i, j)
      ensures SameSample(more[i - 1], more[j - 1])
    {
      EntersSame(born, more, q, r, failures, down, i, j);
    }
    hide Enters, SameSample;
  }

  lemma EntersLength(born: seq<Birth>, more: seq<Birth>, q: Queue, r: Row, failures: nat, down: bool)
    requires Enters(born, more, q, r, failures, down)
    ensures |born| == q.seqNo && |more| == |born| + |r.items| && r.id == q.nextRow
  {
  }

  /** No message joins the row of an older one. */
  lemma RowsApart(born: seq<Birth>, more: seq<Birth>, row: nat, i: nat, j: nat)
    requires Grows(born, more, row) && SameRow(more, i, j)
    ensures i <= |born| <==> j <= |born|
    ensures i <= |born| ==> more[i - 1] == born[i - 1] && more[j - 1] == born[j - 1] && SameRow(born, i, j)
  {
    if i <= |born| { assert more[i - 1] == born[i - 1]; }
    if j <= |born| { assert more[j - 1] == born[j - 1]; }
  }

  lemma EntersSame(born: seq<Birth>, more: seq<Birth>, q: Queue, r: Row, failures: nat, down: bool, i: nat, j: nat)
    requires BornOk(born, q) && Enters(born, more, q, r, failures, down) && Grows(born, more, r.id) && SameRow(more, i, j)
    ensures SameSample(more[i - 1], more[j - 1])
  {
    hide Grows, Enters, BornOk;
    RowsApart(born, more, r.id, i, j);
    if i <= |born| {
      BornTogether(born, q, i, j);
    } else {
      EntersAt(born, more, q, r, failures, down, i - 1);
      EntersAt(born, more, q, r, failures, down, j - 1);
      SampleItems(born, more, q, r, failures, down, i - 1 - |born|, j - 1 - |born|);
    }
  }

  lemma BornTogether(born: seq<Birth>, q: Queue, i: nat, j: nat)
    requires BornOk(born, q) && SameRow(born, i, j)
    ensures SameSample(born[i - 1], born[j - 1])
  {
  }

  lemma SampleItems(born: seq<Birth>, more: seq<Birth>, q: Queue, r: Row, failures: nat, down: bool, l: nat, m: nat)
    requires Enters(born, more, q, r, failures, down) && l < |r.items| && m < |r.items|
    ensures r.items[l].equip == r.items[m].equip && r.items[l].ts == r.items[m].ts
  {
  }

  lemma RowOlder(born: seq<Birth>, q: Queue, r: Row)
    requires BornOk(born, q) && RowOk(born, r)
    ensures r.id < q.nextRow
  {
    assert born[r.items[0].id - 1].row == r.id;
  }

  lemma EntersIds(born: seq<Birth>, more: seq<Birth>, q: Queue, r: Row, failures: nat, down: bool)
    requires Enters(born, more, q, r, failures, down)
    ensures forall i: nat :: i in Ids(r.items) <==> |born| < i <= |more|
  {
    forall i: nat
      ensures i in Ids(r.items) <==> |born| < i <= |more|
    {
      if |born| < i <= |more| { assert r.items[i - 1 - |born|].id == i; }
    }
  }

  lemma EntersItem(born: seq<Birth>, more: seq<Birth>, q: Queue, r: Row, failures: nat, down: bool, m: nat)
    requires Enters(born, more, q, r, failures, down) && m < |r.items|
    ensures r.items[m].id == |born| + m + 1 <= |more|
    ensures more[|born| + m] == Birth(r.items[m], r.id, r.priority, failures, down)
  {
    EntersLength(born, more, q, r, failures, down);
    EntersAt(born, more, q, r, failures, down, |born| + m);
  }

  lemma EntersBornInto(born: seq<Birth>, more: seq<Birth>, q: Queue, r: Row, failures: nat, down: bool)
    requires Enters(born, more, q, r, failures, down)
    ensures BornInto(more, r) && Ascending(r.items) && r.items != []
  {
    assert r.items != [];
    hide Enters;
    forall m | 0 <= m < |r.items|
      ensures r.items[m].id == |born| + m + 1 <= |more|
      ensures more[|born| + m] == Birth(r.items[m], r.id, r.priority, failures, down)
    {
      EntersItem(born, more, q, r, failures, down, m);
    }
  }

  lemma EntersHoldsAll(born: seq<Birth>, more: seq<Birth>, row: nat, r: Row)
    requires Grows(born, more, row) && r.id == row
    requires forall i: nat :: i in Ids(r.items) <==> |born| < i <= |more|
    ensures HoldsAll(more, r)
  {
    hide Ids;
    forall k | 0 <= k < |more| && more[k].row == r.id
      ensures k + 1 in Ids(r.items)
    {
      assert k + 1 in Ids(r.items) <==> |born| < k + 1 <= |more|;
    }
  }

  lemma EntersRow(born: seq<Birth>, more: seq<Birth>, q: Queue, r: Row, failures: nat, down: bool)
    requires BornOk(born, q) && Enters(born, more, q, r, failures, down)
    ensures RowOk(more, r)
  {
    hide BornOk, Ids, Enters, Grows, BornInto, HoldsAll, Ascending;
    EntersGrows(born, more, q, r, failures, down);
    EntersIds(born, more, q, r, failures, down);
    EntersBornInto(born, more, q, r, failures, down);
    EntersHoldsAll(born, more, r.id, r);
  }

  lemma EntersRows(born: seq<Birth>, more: seq<Birth>, q: Queue, r: Row, failures: nat, down: bool)
    requires BornOk(born, q) && RowsOk(born, q.rows) && Enters(born, more, q, r, failures, down)
    ensures RowsOk(more, q.rows + [r])
  {
    EntersRow(born, more, q, r, failures, down);
    EntersGrows(born, more, q, r, failures, down);
    var rows := q.rows + [r];
    hide RowOk, Enters, Grows, Ids;
    forall m | 0 <= m < |q.rows|
      ensures q.rows[m].id < r.id && RowOk(more, q.rows[m])
    {
      RowOlder(born, q, q.rows[m]);
      assert r.id == q.nextRow by { EntersId(born, more, q, r, failures, down); }
      RowGrows(born, more, r.id, q.rows[m]);
    }
  }

  lemma EntersId(born: seq<Birth>, more: seq<Birth>, q: Queue, r: Row, failures: nat, down: bool)
    requires Enters(born, more, q, r, failures, down)
    ensures r.id == q.nextRow
  {
  }

  lemma EntersCovered(born: seq<Birth>, more: seq<Birth>, rows: seq<Row>, r: Row, settled: set<nat>, wider: set<nat>)
    requires Covered(born, rows, settled) && settled <= wider
    requires forall i: nat :: i in Ids(r.items) <==> |born| < i <= |more|
    ensures Covered(more, rows + [r], wider)
  {
    PendingSplit(rows, r);
    forall i | 1 <= i <= |more|
      ensures i in PendingIds(rows + [r]) + wider
    {
      if i <= |born| { assert i in PendingIds(rows) + settled; }
    }
  }

  lemma EntersLost(born: seq<Birth>, more: seq<Birth>, rows: seq<Row>, r: Row, lost: set<nat>)
    requires LostOk(born, rows, lost) && Grows(born, more, r.id)
    requires forall i: nat :: i in Ids(r.items) <==> |born| < i <= |more|
    ensures LostOk(more, rows + [r], lost)
  {
    PendingSplit(rows, r);
    WholeGrows(born, more, r.id, lost);
  }

  lemma NetGrows(born: seq<Birth>, more: seq<Birth>, row: nat, net: seq<seq<Item>>, base: set<nat>, wider: set<nat>)
    requires NetOk(born, net, base) && Grows(born, more, row) && base <= wider
    ensures NetOk(more, net, wider)
  {
    hide Grows, Genuine, Closed, Whole, DistinctIds;
    forall q | 0 <= q < |net|
      ensures RequestOk(more, net[q], wider)
    {
      RequestGrows(born, more, row, net[q], base, wider);
    }
  }

  lemma LogGrows(c: Config, h: History, g: History, row: nat)
    requires LogOk(c, h) && Grows(h.born, g.born, row) && g == h.(born := g.born)
    ensures LogOk(c, g) && Settled(c, h) <= Settled(c, g)
  {
    StrangersGrow(h.born, g.born, row, c.known);
    GenuineGrows(h.born, g.born, row, h.log);
    ClosedGrows(h.born, g.born, row, h.log, Excused(c, h), Excused(c, g));
    WholeGrows(h.born, g.born, row, Ids(h.log));
  }

  lemma LedgerGrows(c: Config, ledger: seq<Item>, h: History, g: History, row: nat)
    requires LogOk(c, h) && LedgerOk(ledger, h) && Grows(h.born, g.born, row) && g == h.(born := g.born)
    ensures LedgerOk(ledger, g)
  {
    LedgerInLog(ledger, h);
    GenuineGrows(h.born, g.born, row, h.log);
    hide Grows, Genuine;
    WholeGrows(h.born, g.born, row, Ids(ledger));
  }

  lemma AnswersGrow(c: Config, net: seq<seq<Item>>, answers: map<nat, seq<nat>>, h: History, g: History, row: nat)
    requires AnswersOk(c, net, answers, h) && Grows(h.born, g.born, row) && g == h.(born := g.born)
    ensures AnswersOk(c, net, answers, g)
  {
    StrangersGrow(h.born, g.born, row, c.known);
  }

  lemma InFlightGrows(batch: seq<Row>, items: seq<Item>, q: Queue, p: Queue, h: History, g: History)
    requires InFlightOk(batch, items, q, h) && Grows(h.born, g.born, q.nextRow) && g == h.(born := g.born)
    requires p.nextRow == q.nextRow + 1 && PendingIds(q.rows) <= PendingIds(p.rows)
    ensures InFlightOk(batch, items, p, g)
  {
    forall k | 0 <= k < |g.born| && g.born[k].row in RowIds(batch)
      ensures k + 1 in Ids(items)
    {
      var m :| 0 <= m < |batch| && RowIds(batch)[m] == g.born[k].row;
      assert batch[m].id < q.nextRow;
      assert g.born[k] == h.born[k];
    }
    forall x | x in Ids(items)
      ensures 1 <= x <= |g.born| && g.born[x - 1].row in RowIds(batch) && x in PendingIds(p.rows) + g.lost
    {
      assert g.born[x - 1] == h.born[x - 1];
    }
  }

  lemma EntersCounts(q: Queue, p: Queue, born: seq<Birth>, r: Row, h: History, g: History)
    requires CountsOk(q, h) && RowsOk(born, q.rows) && RowOk(g.born, r) && g.doubled == h.doubled
    requires forall i: nat :: i in Ids(r.items) ==> |born| < i
    requires p == q.(rows := q.rows + [r], nextRow := p.nextRow, seqNo := q.seqNo + |r.items|)
    ensures CountsOk(p, g)
  {
    hide RowsOk, RowOk, PendingIds, Ids;
    PendingSplit(q.rows, r);
    RowIdsCount(g.born, r);
    var pending, added := PendingIds(q.rows), Ids(r.items);
    forall i | i in pending
      ensures i !in added
    {
      var t := PendingRow(born, q.rows, i);
    }
    Disjoint(pending, added);
  }

  lemma Disjoint(a: set<nat>, b: set<nat>)
    requires a !! b
    ensures |a + b| == |a| + |b|
  {
  }

  lemma EntersFlags(born: seq<Birth>, more: seq<Birth>, q: Queue, r: Row, link: Link, h: History, g: History)
    requires BornOk(born, q) && RowsOk(born, q.rows) && FlagsOk(q.rows, link, h) && h.born == born
    requires Enters(born, more, q, r, h.failures, link == Down) && g == h.(born := more)
    requires r.attempts == 0 && r.buffered == (link == Down)
    ensures FlagsOk(q.rows + [r], link, g)
  {
    EntersGrows(born, more, q, r, h.failures, link == Down);
    hide BornOk;
    var rows := q.rows + [r];
    forall m | 0 <= m < |rows|
      ensures RowFlagsOk(g, rows[m])
    {
      if m < |q.rows| {
        assert RowOk(born, rows[m]) && RowFlagsOk(h, rows[m]);
        assert more[rows[m].items[0].id - 1] == born[rows[m].items[0].id - 1];
      } else {
        EntersAt(born, more, q, r, h.failures, link == Down, |born|);
      }
    }
  }

  lemma SampledKeeps(c: Config, s: State, sample: Sample, now: int)
    requires Inv(c, s)
    ensures Inv(c, TakeSample(s, sample, now))
  {
    if sample.readings != [] {
      var h, t, r := s.hist, TakeSample(s, sample, now), NewRow(s, sample, now);
      var more, failures, down := t.hist.born, s.hist.failures, s.link == Down;
      SampleShape(c, s, sample, now);
      hide BornOk, RowsOk, RowOk, Covered, LostOk, NetOk, LogOk, LedgerOk, AnswersOk, CountsOk, FlagsOk, PendingIds,
           Payload, InFlightOk, Settled, Enters, Grows, Ids, TakeSample, NewRow;
      EntersId(h.born, more, s.queue, r, failures, down);
      EntersGrows(h.born, more, s.queue, r, failures, down);
      EntersBorn(h.born, more, s.queue, t.queue, r, failures, down);
      EntersRow(h.born, more, s.queue, r, failures, down);
      EntersIds(h.born, more, s.queue, r, failures, down);
      EntersRows(h.born, more, s.queue, r, failures, down);
      LogGrows(c, h, t.hist, r.id);
      LedgerGrows(c, s.ledger, h, t.hist, r.id);
      EntersCovered(h.born, more, s.queue.rows, r, Settled(c, h), Settled(c, t.hist));
      EntersLost(h.born, more, s.queue.rows, r, h.lost);
      NetGrows(h.born, more, r.id, s.net, Settled(c, h), Settled(c, t.hist));
      AnswersGrow(c, s.net, s.answers, h, t.hist, r.id);
      EntersCounts(s.queue, t.queue, h.born, r, h, t.hist);
      EntersFlags(h.born, more, s.queue, r, s.link, h, t.hist);
      PendingSplit(s.queue.rows, r);
      if s.sender.Waiting? {
        InFlightGrows(s.sender.batch, s.net[s.sender.req], s.queue, t.queue, h, t.hist);
      }
    }
  }
}
