// The delivery protocol never gets stuck: whatever has happened, a queue can still be delivered.

module DeliveryProgress {
  import opened Outcomes
  import opened Sequences
  import opened EdgeBuffer
  import opened MesLedger
  import opened Delivery
  import opened DeliveryInvariant
  import opened DeliverySteps
  import opened DeliveryQueue
  import opened DeliveryTheorems

  lemma {:induction false} FilterShrinks<T(!new)>(s: seq<T>, keep: T -> bool, x: T)
    requires x in s && !keep(x)
    ensures |Filter(s, keep)| < |s|
  {
    var n := |s| - 1;
    if x in s[..n] { FilterShrinks(s[..n], keep, x); }
  }

  lemma BatchNotEmpty(rows: seq<Row>, max: int)
    requires DistinctRows(rows) && rows != [] && max != 0
    ensures Batch(rows, max) != []
  {
    OrderedIsSorted(rows);
    hide Ordered;
    var s := Limited(Ordered(rows), max);
    assert s[..0] == [];
    GreedyLengthIsGreedy(s, 0, 0, max);
  }

  /** No samples, purges, restarts or line faults. */
  predicate Calm(acts: seq<Action>) {
    forall a :: a in acts ==> a.Send? || a.Process? || a.Acknowledge? || a.Fail?
  }

  lemma SendStep(c: Config, s: State)
    requires Inv(c, s) && s.sender == Idle && s.queue.rows != [] && c.batchMax != 0
    ensures var t := Step(c, s, Send);
            && t.sender == Waiting(|s.net|, NextBatch(c, s)) && t.net == s.net + [Payload(NextBatch(c, s))]
            && t.queue == s.queue && NextBatch(c, s) != []
            && forall r :: r in NextBatch(c, s) ==> r in s.queue.rows
  {
    RowsDistinct(s.hist.born, s.queue.rows);
    BatchNotEmpty(s.queue.rows, c.batchMax);
    BatchIsFront(s.queue.rows, c.batchMax);
    hide Batch, Payload, Inv;
  }

  lemma AckShrinks(s: State)
    requires s.sender.Waiting? && s.sender.req in s.answers && s.sender.batch != []
    requires AllAccepted(Payload(s.sender.batch), s.answers[s.sender.req])
    requires forall r :: r in s.sender.batch ==> r in s.queue.rows
    ensures |Acknowledged(s).queue.rows| < |s.queue.rows| && Acknowledged(s).sender == Idle
  {
    hide Payload, PendingIds, AllAccepted, ResentCount, Filter;
    var r := s.sender.batch[0];
    assert r in s.sender.batch && RowIds(s.sender.batch)[0] == r.id;
    FilterShrinks(s.queue.rows, (x: Row) => x.id !in RowIds(s.sender.batch), r);
  }

  /** One undisturbed round delivers at least one row. */
  lemma RoundDelivers(c: Config, s: State)
    requires Inv(c, s) && s.sender == Idle && s.queue.rows != [] && c.batchMax != 0
    ensures var t := Step(c, Step(c, Step(c, s, Send), Process(|s.net|)), Acknowledge);
            t.sender == Idle && |t.queue.rows| < |s.queue.rows|
  {
    hide Inv, StartSend, Payload, Fresh, Acknowledged, AllAccepted, NextBatch;
    var a := Step(c, s, Send);
    SendStep(c, s);
    StepKeeps(c, s, Send);
    var b := Step(c, a, Process(|s.net|));
    StepKeeps(c, a, Process(|s.net|));
    assert b.sender == a.sender && b.queue == a.queue && |s.net| in b.answers;
    AnswerAcceptsAll(c, b);
    AckShrinks(b);
  }

  /** In every run there is a way on, without any further fault, that delivers everything queued. */
  lemma {:induction false} QueueCanDrain(c: Config, acts: seq<Action>) returns (more: seq<Action>)
    requires c.batchMax != 0
    ensures Run(c, acts + more).queue.rows == [] && Calm(more)
    decreases |Run(c, acts).queue.rows|, if Run(c, acts).sender.Waiting? then 1 else 0
  {
    hide Inv, StartSend, Ingested, Acknowledged;
    var s := Run(c, acts);
    RunKeeps(c, acts);
    if s.queue.rows == [] {
      more := [];
      assert acts + more == acts;
    } else if s.sender.Waiting? {
      RunSnoc(c, acts, Fail);
      var rest := QueueCanDrain(c, acts + [Fail]);
      more := [Fail] + rest;
      assert acts + more == (acts + [Fail]) + rest;
    } else {
      RoundDelivers(c, s);
      var one, two := acts + [Send], (acts + [Send]) + [Process(|s.net|)];
      RunSnoc(c, acts, Send);
      RunSnoc(c, one, Process(|s.net|));
      RunSnoc(c, two, Acknowledge);
      var rest := QueueCanDrain(c, two + [Acknowledge]);
      more := [Send, Process(|s.net|), Acknowledge] + rest;
      assert acts + more == (two + [Acknowledge]) + rest;
    }
  }
}
