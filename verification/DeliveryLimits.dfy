// Where the delivery protocol's promises end: concrete families of runs that show each condition of
// the theorems is needed.

module DeliveryLimits {
  import opened Outcomes
  import opened Sequences
  import opened EdgeBuffer
  import opened MesLedger
  import opened Delivery
  import opened DeliveryTheorems

  function OnlyRow(sample: Sample, row: nat, first: nat, now: int): Row {
    Row(row, NORMAL, now, 0, false, Numbered(ToRawItems(sample), first))
  }

  predicate Plain(c: Config, sample: Sample) {
    && c.batchMax >= 1 && sample.readings != [] && sample.equip in c.known
    && Lookup(sample.readings, "ng_cnt") == None
  }

  lemma BatchOfOne(r: Row, max: int)
    requires max >= 1
    ensures Batch([r], max) == [r] && Payload([r]) == Flagged(r)
  {
    assert [r][..0] == [];
    assert Insert(r, []) == [r] && Ordered([]) == [];
    assert Ordered([r]) == [r];
    assert GreedyLength([r], 0, 0, max) == GreedyLength([r], 1, |r.items|, max) == 1;
    assert Payload([]) == [];
  }

  lemma Unflagged(r: Row)
    requires r.attempts == 0 && !r.buffered && forall m :: 0 <= m < |r.items| ==> !r.items[m].resend
    ensures Flagged(r) == r.items
  {
  }

  /** One sample taken and sent, from the start. */
  lemma FirstSend(c: Config, sample: Sample, now: int)
    requires Plain(c, sample)
    ensures var s, r := Run(c, [Sampled(sample, now), Send]), OnlyRow(sample, 1, 1, now);
            && s.queue == Queue([r], 2, |r.items|, 0, 0, 0) && s.net == [r.items] && s.link == Unknown
            && s.sender == Waiting(0, [r]) && s.ledger == [] && s.hist.log == [] && s.answers == map[]
            && s.hist.failures == 0 && s.hist.lost == {} && s.mdNg == map[]
  {
    var r := OnlyRow(sample, 1, 1, now);
    assert [Sampled(sample, now), Send] == [Sampled(sample, now)] + [Send];
    assert [Sampled(sample, now)] == [] + [Sampled(sample, now)];
    RunSnoc(c, [Sampled(sample, now)], Send);
    RunSnoc(c, [], Sampled(sample, now));
    BatchOfOne(r, c.batchMax);
    Unflagged(r);
    hide Batch, Payload, Flagged, Run;
    assert Run(c, []) == INITIAL by { EmptyRun(c); }
  }

  lemma EmptyRun(c: Config)
    ensures Run(c, []) == INITIAL
  {
  }

  /** After a restart the same single row is sent again as it was. */
  lemma SentAgain(c: Config, s: State, r: Row)
    requires c.batchMax >= 1 && s.queue.rows == [r] && Flagged(r) == r.items && s.net == [r.items]
    ensures Step(c, Step(c, s, EdgeRestart), Send).net == [r.items, r.items]
  {
    BatchOfOne(r, c.batchMax);
    hide Batch, Payload;
  }

  /** A send cut off by a restart is not a failed send: the same messages go out again unflagged. */
  lemma RestartedSendIsUnflagged(c: Config, sample: Sample, now: int)
    requires Plain(c, sample)
    ensures var s := Run(c, [Sampled(sample, now), Send, EdgeRestart, Send]);
            && |s.net| == 2 && s.net[1] == s.net[0] != []
            && forall m :: 0 <= m < |s.net[1]| ==> !s.net[1][m].resend
  {
    var b, r := [Sampled(sample, now), Send], OnlyRow(sample, 1, 1, now);
    assert [Sampled(sample, now), Send, EdgeRestart, Send] == (b + [EdgeRestart]) + [Send];
    RunSnoc(c, b + [EdgeRestart], Send);
    RunSnoc(c, b, EdgeRestart);
    FirstSend(c, sample, now);
    Unflagged(r);
    hide Run, Step, Flagged;
    SentAgain(c, Run(c, b), r);
  }

  lemma {:induction false} FreshAll(stored: set<nat>, known: set<string>, items: seq<Item>)
    requires DistinctIds(items) && Ids(items) !! stored && AllKnown(known, items)
    ensures Fresh(stored, known, items) == items
  {
    if items != [] {
      var n := |items| - 1;
      assert items == items[..n] + [items[n]];
      IdsAppend(items[..n], [items[n]]);
      FreshAll(stored, known, items[..n]);
      assert items[n] in items && items[n].id in Ids(items);
    }
  }

  /** The request is ingested, its answer is lost, and the sender sends the row again. */
  lemma AnswerLost(c: Config, s: State, r: Row)
    requires c.batchMax >= 1 && s.queue.rows == [r] && s.net == [r.items] && s.sender == Waiting(0, [r])
    requires s.ledger == [] && s.hist.log == [] && Fresh({}, c.known, r.items) == r.items
    ensures var q := r.(attempts := r.attempts + 1, buffered := true);
            var t := Step(c, Step(c, Step(c, s, Process(0)), Fail), Send);
            t.net == [r.items, Flagged(q)] && t.ledger == r.items && t.hist.log == r.items
  {
    hide Fresh, Batch, Payload, Flagged, MessageIds;
    var q := r.(attempts := r.attempts + 1, buffered := true);
    NoIds();
    assert Marked([r]) == [q];
    assert [] + r.items == r.items;
    BatchOfOne(q, c.batchMax);
  }

  /** The purge deletes what was stored, and the second request arrives. */
  lemma StoredAgain(c: Config, s: State, first: seq<Item>, again: seq<Item>, ts: int)
    requires s.net == [first, again] && s.ledger == first && s.hist.log == first && Fresh({}, c.known, again) == again
    requires forall x :: x in first ==> x.ts < ts
    ensures Step(c, Step(c, s, MesPurge(ts)), Process(1)).hist.log == first + again
    ensures Step(c, Step(c, s, MesPurge(ts)), Process(1)).net == s.net
  {
    hide Fresh, Filter;
    NoIds();
    FilterNone(first, (x: Item) => x.ts >= ts);
  }

  lemma FlaggedAlike(c: Config, sample: Sample, q: Row)
    requires Plain(c, sample) && q == OnlyRow(sample, 1, 1, q.created).(attempts := 1, buffered := true)
    ensures var again := Flagged(q);
            && |again| == |q.items| > 0 && DistinctIds(again) && AllKnown(c.known, again)
            && forall m :: 0 <= m < |again| ==> again[m] == q.items[m].(resend := true)
  {
  }

  /** A sample is stored, its answer is lost, and it is sent again; meanwhile the daily purge deletes it.  The second request
      then stores it a second time. */
  lemma ForgottenIsStoredAgain(c: Config, sample: Sample, now: int)
    requires Plain(c, sample)
    ensures var acts := [Sampled(sample, now), Send, Process(0), Fail, Send, MesPurge(sample.ts + 1), Process(1)];
            var s := Run(c, acts);
            && |s.net| == 2 && s.hist.log == s.net[0] + s.net[1] && |s.net[0]| == |s.net[1]| > 0
            && (forall m :: 0 <= m < |s.net[0]| ==> s.net[1][m] == s.net[0][m].(resend := true))
            && !NothingReturns(c, acts)
  {
    var b, r := [Sampled(sample, now), Send], OnlyRow(sample, 1, 1, now);
    var q, purge := r.(attempts := 1, buffered := true), MesPurge(sample.ts + 1);
    var d := ((b + [Process(0)]) + [Fail]) + [Send];
    var acts := [Sampled(sample, now), Send, Process(0), Fail, Send, purge, Process(1)];
    assert acts == (d + [purge]) + [Process(1)];
    RunSnoc(c, d + [purge], Process(1));
    RunSnoc(c, d, purge);
    RunSnoc(c, (b + [Process(0)]) + [Fail], Send);
    RunSnoc(c, b + [Process(0)], Fail);
    RunSnoc(c, b, Process(0));
    FirstSend(c, sample, now);
    NoIds();
    FreshAll({}, c.known, r.items);
    FlaggedAlike(c, sample, q);
    FreshAll({}, c.known, Flagged(q));
    hide Run, Step, Fresh, Ids, Flagged, NothingReturns;
    AnswerLost(c, Run(c, b), r);
    StoredAgain(c, Run(c, d), r.items, Flagged(q), sample.ts + 1);
    StoredOnceExactly(c, acts);
    var log := r.items + Flagged(q);
    assert log[0].id == log[|r.items|].id;
  }

  lemma PurgeOne(r: Row, cut: int)
    requires r.created < cut && r.items != []
    ensures Purged(Queue([r], 2, |r.items|, 0, 0, 0), cut).rows == []
    ensures Purged(Queue([r], 2, |r.items|, 0, 0, 0), cut).nextRow == 2
    ensures Purged(Queue([r], 2, |r.items|, 0, 0, 0), cut).seqNo == |r.items|
  {
    assert [r][..0] == [];
    assert Old([r], cut) == [r];
    assert ItemCount([r]) == |r.items|;
  }

  /** The first sample is purged in flight, its send fails, and a second sample is taken. */
  lemma SecondSample(c: Config, s: State, r: Row, sample: Sample, now: int, cut: int)
    requires Plain(c, sample) && r.created < cut && r.items != []
    requires s.queue == Queue([r], 2, |r.items|, 0, 0, 0) && s.sender == Waiting(0, [r]) && s.mdNg == map[]
    ensures var q := OnlyRow(sample, 2, |r.items| + 1, now).(buffered := true);
            var t := Step(c, Step(c, Step(c, s, EdgePurge(cut)), Fail), Sampled(sample, now));
            && t.queue.rows == [q] && t.sender == Idle && t.net == s.net && t.ledger == s.ledger && t.hist.log == s.hist.log
  {
    hide PendingIds, Filter;
    PurgeOne(r, cut);
    hide Purged, Old;
    assert Marked([]) == [];
    var q := OnlyRow(sample, 2, |r.items| + 1, now).(buffered := true);
    assert [] + [q] == [q];
  }

  lemma BothArrive(c: Config, s: State, a: seq<Item>, b: seq<Item>)
    requires s.net == [a, b] && s.ledger == [] && s.hist.log == []
    requires DistinctIds(a) && DistinctIds(b) && Ids(a) !! Ids(b) && AllKnown(c.known, a) && AllKnown(c.known, b)
    ensures Step(c, Step(c, s, Process(1)), Process(0)).hist.log == b + a
    ensures Step(c, Step(c, s, Process(1)), Process(0)).net == s.net
  {
    NoIds();
    FreshAll({}, c.known, b);
    FreshAll(Ids(b), c.known, a);
    hide Fresh, Ids;
    assert [] + b == b;
  }

  lemma NoIds()
    ensures Ids([]) == {}
  {
  }

  lemma NumberedApart(a: Sample, b: Sample, resend: Row)
    requires resend == OnlyRow(b, 2, |a.readings| + 1, resend.created).(buffered := true)
    ensures var x, y := Numbered(ToRawItems(a), 1), Flagged(resend);
            DistinctIds(x) && DistinctIds(y) && Ids(x) !! Ids(y)
  {
    var x, y := Numbered(ToRawItems(a), 1), Flagged(resend);
    forall i | i in Ids(x)
      ensures i <= |a.readings|
    {
    }
    forall i | i in Ids(y)
      ensures i > |a.readings|
    {
    }
  }

  /** A sample purged in flight can still arrive, and then later than its successors. */
  lemma PurgedInFlightArrivesLate(c: Config, a: Sample, b: Sample, now: int)
    requires Plain(c, a) && Plain(c, b)
    ensures var s := Run(c, [Sampled(a, now), Send, EdgePurge(now + 1), Fail, Sampled(b, now), Send, Process(1), Process(0)]);
            |s.net| == 2 && s.net[0] != [] && s.net[1] != [] && s.hist.log == s.net[1] + s.net[0]
  {
    var r, q := OnlyRow(a, 1, 1, now), OnlyRow(b, 2, |a.readings| + 1, now).(buffered := true);
    var x := [Sampled(a, now), Send];
    var y := ((x + [EdgePurge(now + 1)]) + [Fail]) + [Sampled(b, now)];
    assert [Sampled(a, now), Send, EdgePurge(now + 1), Fail, Sampled(b, now), Send, Process(1), Process(0)] ==
           ((y + [Send]) + [Process(1)]) + [Process(0)];
    RunSnoc(c, (y + [Send]) + [Process(1)], Process(0));
    RunSnoc(c, y + [Send], Process(1));
    RunSnoc(c, y, Send);
    RunSnoc(c, (x + [EdgePurge(now + 1)]) + [Fail], Sampled(b, now));
    RunSnoc(c, x + [EdgePurge(now + 1)], Fail);
    RunSnoc(c, x, EdgePurge(now + 1));
    FirstSend(c, a, now);
    hide Run, Step;
    SecondSample(c, Run(c, x), r, b, now, now + 1);
    SendOne(c, Run(c, y), q);
    NumberedApart(a, b, q);
    KnownItems(c, a, b, q);
    BothArrive(c, Step(c, Run(c, y), Send), r.items, Flagged(q));
  }

  lemma KnownItems(c: Config, a: Sample, b: Sample, q: Row)
    requires Plain(c, a) && Plain(c, b) && q == OnlyRow(b, 2, |a.readings| + 1, q.created).(buffered := true)
    ensures AllKnown(c.known, Numbered(ToRawItems(a), 1)) && AllKnown(c.known, Flagged(q))
    ensures Numbered(ToRawItems(a), 1) != [] && Flagged(q) != []
  {
  }

  lemma SendOne(c: Config, s: State, q: Row)
    requires c.batchMax >= 1 && s.queue.rows == [q] && s.sender == Idle && |s.net| == 1
    ensures Step(c, s, Send).net == [s.net[0], Flagged(q)]
    ensures Step(c, s, Send).ledger == s.ledger && Step(c, s, Send).hist == s.hist
  {
    BatchOfOne(q, c.batchMax);
    hide Batch, Payload;
  }
}
