// Requests and ingests list the messages of a sample, and of a priority, in the order of their numbers.

module RequestOrder {
  import opened Outcomes
  import opened Sequences
  import opened EdgeBuffer
  import opened MesLedger
  import opened Delivery
  import opened DeliveryInvariant
  import opened DeliverySteps
  import opened DeliveryIngest
  import opened DeliverySample
  import opened DeliveryTheorems

  /** Messages of one sample, or of one priority. */
  ghost predicate Akin(a: Birth, b: Birth) {
    a.row == b.row || a.priority == b.priority
  }

  /** The items of one sample, and of one priority, are listed in the order of their numbers. */
  ghost predicate RowsInOrder(born: seq<Birth>, items: seq<Item>) {
    && (forall m :: 0 <= m < |items| ==> 1 <= items[m].id <= |born|)
    && (forall l, m :: 0 <= l < m < |items| && Akin(born[items[l].id - 1], born[items[m].id - 1]) ==>
          items[l].id < items[m].id)
  }

  ghost predicate AllInOrder(born: seq<Birth>, lists: seq<seq<Item>>) {
    forall q :: 0 <= q < |lists| ==> RowsInOrder(born, lists[q])
  }

  lemma FlaggedInOrder(born: seq<Birth>, r: Row)
    requires RowOk(born, r)
    ensures RowsInOrder(born, Flagged(r))
    ensures forall m :: 0 <= m < |r.items| ==> born[Flagged(r)[m].id - 1].row == r.id
  {
    forall m | 0 <= m < |r.items|
      ensures Flagged(r)[m].id == r.items[m].id && 1 <= r.items[m].id <= |born| && born[r.items[m].id - 1].row == r.id
    {
    }
    hide Flagged;
  }

  lemma InOrderAppend(born: seq<Birth>, a: seq<Item>, b: seq<Item>)
    requires RowsInOrder(born, a) && RowsInOrder(born, b)
    requires forall l, m :: 0 <= l < |a| && 0 <= m < |b| && Akin(born[a[l].id - 1], born[b[m].id - 1]) ==> a[l].id < b[m].id
    ensures RowsInOrder(born, a + b)
  {
  }

  lemma NotInFrontRows(born: seq<Birth>, rows: seq<Row>, batch: seq<Row>)
    requires RowsOk(born, rows) && FrontOf(batch, rows) && batch != []
    ensures batch[|batch| - 1].id !in RowIds(batch[..|batch| - 1])
  {
    var n := |batch| - 1;
    forall m | 0 <= m < n
      ensures batch[m].id != batch[n].id
    {
      assert batch[m] in batch && batch[n] in batch && Before(batch[m], batch[n]);
      if batch[m].id == batch[n].id { SameIdSameRow(born, rows, batch[m], batch[n]); }
    }
  }

  lemma PayloadRowOf(born: seq<Birth>, rows: seq<Row>, batch: seq<Row>, l: nat)
    requires RowsOk(born, rows) && FrontOf(batch, rows) && Genuine(born, Payload(batch)) && l < |Payload(batch)|
    ensures 1 <= Payload(batch)[l].id <= |born| && born[Payload(batch)[l].id - 1].row in RowIds(batch)
  {
    hide RowsOk, Payload, RowIds;
    InIds(Payload(batch), Payload(batch)[l]);
    assert Payload(batch)[l] in Payload(batch);
    PayloadRows(born, rows, batch, Payload(batch)[l].id);
  }

  ghost predicate RowsRise(born: seq<Birth>) {
    forall j, k :: 0 <= j < k < |born| ==> born[j].row <= born[k].row
  }

  lemma MessageOfRow(born: seq<Birth>, r: Row, i: nat)
    requires RowOk(born, r) && 1 <= i <= |born| && born[i - 1].row == r.id
    ensures born[i - 1].priority == r.priority
  {
    assert i - 1 + 1 in Ids(r.items);
    var m :| 0 <= m < |r.items| && r.items[m].id == i;
  }

  lemma HigherRowLater(born: seq<Birth>, i: nat, j: nat)
    requires RowsRise(born) && 1 <= i <= |born| && 1 <= j <= |born| && born[i - 1].row < born[j - 1].row
    ensures i < j
  {
  }

  /** A message of the front of a batch and one of its last row. */
  lemma FrontAndLast(born: seq<Birth>, rows: seq<Row>, batch: seq<Row>, i: nat, j: nat)
    requires RowsOk(born, rows) && FrontOf(batch, rows) && RowsRise(born) && batch != []
    requires 1 <= i <= |born| && 1 <= j <= |born| && Akin(born[i - 1], born[j - 1])
    requires born[i - 1].row in RowIds(batch[..|batch| - 1]) && born[j - 1].row == batch[|batch| - 1].id
    ensures i < j
  {
    var n := |batch| - 1;
    RowsDistinct(born, rows);
    NotInFrontRows(born, rows, batch);
    var k :| 0 <= k < n && batch[..n][k].id == born[i - 1].row;
    assert batch[k] in batch && batch[n] in batch && Before(batch[k], batch[n]);
    hide RowsOk, RowOk, FrontOf, RowsRise;
    MessageOfRow(born, batch[k], i);
    MessageOfRow(born, batch[n], j);
    HigherRowLater(born, i, j);
  }

  lemma {:induction false} PayloadInOrder(born: seq<Birth>, rows: seq<Row>, batch: seq<Row>)
    requires RowsOk(born, rows) && FrontOf(batch, rows) && RowsRise(born)
    requires forall k :: 0 <= k < |born| ==> !born[k].item.resend
    ensures RowsInOrder(born, Payload(batch))
  {
    if batch != [] {
      var n := |batch| - 1;
      FrontPrefix(batch, rows, n);
      PayloadInOrder(born, rows, batch[..n]);
      PayloadGenuine(born, rows, batch[..n]);
      LastRowOk(born, rows, batch);
      FlaggedInOrder(born, batch[n]);
      hide RowsOk, RowOk, FrontOf, RowsInOrder, Genuine, RowIds, RowsRise, Akin;
      var before, last := Payload(batch[..n]), Flagged(batch[n]);
      forall l: nat, m: nat | l < |before| && m < |last|
        ensures 1 <= before[l].id <= |born| && 1 <= last[m].id <= |born|
        ensures Akin(born[before[l].id - 1], born[last[m].id - 1]) ==> before[l].id < last[m].id
      {
        PayloadRowOf(born, rows, batch[..n], l);
        InRange(born, last, m);
        if Akin(born[before[l].id - 1], born[last[m].id - 1]) { FrontAndLast(born, rows, batch, before[l].id, last[m].id); }
      }
      InOrderAppend(born, before, last);
    }
  }

  lemma InRange(born: seq<Birth>, items: seq<Item>, m: nat)
    requires RowsInOrder(born, items) && m < |items|
    ensures 1 <= items[m].id <= |born|
  {
  }

  lemma OrderGrows(born: seq<Birth>, more: seq<Birth>, items: seq<Item>)
    requires RowsInOrder(born, items) && born <= more
    ensures RowsInOrder(more, items)
  {
    assert forall k :: 0 <= k < |born| ==> more[k] == born[k];
  }

  /** The new rows of a request keep its order. */
  lemma {:induction false} FreshInOrder(born: seq<Birth>, stored: set<nat>, known: set<string>, items: seq<Item>)
    requires RowsInOrder(born, items)
    ensures RowsInOrder(born, Fresh(stored, known, items))
  {
    if items != [] {
      var n := |items| - 1;
      FreshInOrder(born, stored, known, items[..n]);
      var before, after := Fresh(stored, known, items[..n]), Fresh(stored, known, items);
      FreshFacts(stored, known, items[..n]);
      assert after == before || after == before + [items[n]];
      hide Fresh;
      if after != before { OrderSnoc(born, items, before); }
    }
  }

  lemma OrderSnoc(born: seq<Birth>, items: seq<Item>, before: seq<Item>)
    requires RowsInOrder(born, items) && RowsInOrder(born, before) && items != []
    requires forall x :: x in before ==> x in items[..|items| - 1]
    ensures RowsInOrder(born, before + [items[|items| - 1]])
  {
    var n := |items| - 1;
    forall l | 0 <= l < |before| && Akin(born[before[l].id - 1], born[items[n].id - 1])
      ensures before[l].id < items[n].id
    {
      assert before[l] in before;
      var k :| 0 <= k < n && items[..n][k] == before[l];
    }
  }

  ghost predicate InOrderSoFar(s: State) {
    AllInOrder(s.hist.born, s.net) && AllInOrder(s.hist.born, s.hist.ingests)
  }

  lemma BatchInOrder(c: Config, s: State)
    requires Inv(c, s)
    ensures RowsInOrder(s.hist.born, Payload(NextBatch(c, s)))
  {
    RowsDistinct(s.hist.born, s.queue.rows);
    BatchIsFront(s.queue.rows, c.batchMax);
    NoneFlagged(s.hist.born, s.queue);
    hide Batch, Payload, BornOk;
    PayloadInOrder(s.hist.born, s.queue.rows, NextBatch(c, s));
  }

  lemma NoneFlagged(born: seq<Birth>, q: Queue)
    requires BornOk(born, q)
    ensures RowsRise(born) && forall k :: 0 <= k < |born| ==> !born[k].item.resend
  {
  }

  lemma AllGrow(born: seq<Birth>, more: seq<Birth>, lists: seq<seq<Item>>)
    requires AllInOrder(born, lists) && born <= more
    ensures AllInOrder(more, lists)
  {
    hide RowsInOrder;
    forall q | 0 <= q < |lists|
      ensures RowsInOrder(more, lists[q])
    {
      OrderGrows(born, more, lists[q]);
    }
  }

  lemma AllSnoc(born: seq<Birth>, lists: seq<seq<Item>>, items: seq<Item>)
    requires AllInOrder(born, lists) && RowsInOrder(born, items)
    ensures AllInOrder(born, lists + [items])
  {
    hide RowsInOrder;
  }

  lemma BornGrows(s: State, sample: Sample, now: int)
    ensures s.hist.born <= TakeSample(s, sample, now).hist.born
    ensures TakeSample(s, sample, now).net == s.net && TakeSample(s, sample, now).hist.ingests == s.hist.ingests
  {
  }

  lemma InOrderStep(c: Config, s: State, a: Action)
    requires Inv(c, s) && InOrderSoFar(s)
    ensures InOrderSoFar(Step(c, s, a))
  {
    hide Inv, AllInOrder, NextBatch, Payload, Fresh, Ids, PendingIds, Filter, AllAccepted, ResentCount, TakeSample, Marked,
         Purged, Old;
    match a
    case Sampled(sample, now) =>
      BornGrows(s, sample, now);
      AllGrow(s.hist.born, TakeSample(s, sample, now).hist.born, s.net);
      AllGrow(s.hist.born, TakeSample(s, sample, now).hist.born, s.hist.ingests);
    case Send =>
      BatchInOrder(c, s);
      AllSnoc(s.hist.born, s.net, Payload(NextBatch(c, s)));
    case Process(req) =>
      if req < |s.net| {
        assert RowsInOrder(s.hist.born, s.net[req]) by { AllAt(s.hist.born, s.net, req); }
        FreshInOrder(s.hist.born, Ids(s.ledger), c.known, s.net[req]);
        AllSnoc(s.hist.born, s.hist.ingests, Fresh(Ids(s.ledger), c.known, s.net[req]));
      }
    case _ =>
  }

  lemma AllAt(born: seq<Birth>, lists: seq<seq<Item>>, q: nat)
    requires AllInOrder(born, lists) && q < |lists|
    ensures RowsInOrder(born, lists[q])
  {
  }

  /** In every run every request, and every ingest, lists the messages of a sample in order. */
  lemma {:induction false} RunInOrder(c: Config, acts: seq<Action>)
    ensures InOrderSoFar(Run(c, acts))
  {
    hide Step, Inv;
    if acts != [] {
      RunKeeps(c, acts[..|acts| - 1]);
      RunInOrder(c, acts[..|acts| - 1]);
      hide InOrderSoFar;
      InOrderStep(c, Run(c, acts[..|acts| - 1]), acts[|acts| - 1]);
    }
  }
}
