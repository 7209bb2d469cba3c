// What the invariant means for every run of the delivery protocol: with lost answers, requests that
// arrive late or again, cancelled sends, restarts, and purges on both sides.

module DeliveryTheorems {
  import opened Outcomes
  import opened Sequences
  import opened EdgeBuffer
  import opened MesLedger
  import opened Delivery
  import opened DeliveryInvariant
  import opened DeliverySteps
  import opened DeliveryIngest
  import opened DeliveryQueue
  import opened DeliverySample

  lemma StepKeeps(c: Config, s: State, a: Action)
    requires Inv(c, s)
    ensures Inv(c, Step(c, s, a))
  {
    hide Inv, StartSend, Failed, Ingested, Acknowledged, PurgedAtEdge, PurgedAtMes, TakeSample, NextBatch;
    match a
    case Sampled(sample, now) => SampledKeeps(c, s, sample, now);
    case Send => SendKeeps(c, s);
    case LinkFault => FailKeeps(c, s);
    case Process(req) => if req < |s.net| { ProcessKeeps(c, s, req); }
    case Acknowledge => AcknowledgeKeeps(c, s);
    case Fail => FailKeeps(c, s);
    case EdgePurge(cut) => EdgePurgeKeeps(c, s, cut);
    case EdgeRestart => RestartKeeps(c, s);
    case MesPurge(cutoff) => MesPurgeKeeps(c, s, cutoff);
  }

  lemma InitialInv(c: Config)
    ensures Inv(c, INITIAL)
  {
  }

  lemma {:induction false} RunKeeps(c: Config, acts: seq<Action>)
    ensures Inv(c, Run(c, acts))
  {
    hide Inv, Step;
    if acts == [] {
      InitialInv(c);
    } else {
      RunKeeps(c, acts[..|acts| - 1]);
      StepKeeps(c, Run(c, acts[..|acts| - 1]), acts[|acts| - 1]);
    }
  }

  lemma RunSnoc(c: Config, acts: seq<Action>, a: Action)
    ensures Run(c, acts + [a]) == Step(c, Run(c, acts), a)
  {
    assert (acts + [a])[..|acts|] == acts;
  }

  // ---------- no loss ----------

  /** In every run each message ever numbered is still queued, or in the ledger, or was deleted by one of
      the two purges, or comes from equipment the MES does not know. */
  lemma NothingIsLost(c: Config, acts: seq<Action>, i: nat)
    requires 1 <= i <= Run(c, acts).queue.seqNo
    ensures var s := Run(c, acts);
            || i in PendingIds(s.queue.rows) || i in Ids(s.ledger) || i in s.hist.forgotten || i in s.hist.lost
            || i in Strangers(s.hist.born, c.known)
  {
    var s := Run(c, acts);
    RunKeeps(c, acts);
    BornCount(c, s);
    CoveredAt(s.hist.born, s.queue.rows, Settled(c, s.hist), i);
    LogRemembered(s.ledger, s.hist) by { assert Inv(c, s); }
    hide Run, Inv, PendingIds, Ids, Strangers;
  }

  lemma BornCount(c: Config, s: State)
    requires Inv(c, s)
    ensures |s.hist.born| == s.queue.seqNo
    ensures Covered(s.hist.born, s.queue.rows, Settled(c, s.hist))
  {
  }

  lemma LogRemembered(ledger: seq<Item>, h: History)
    requires LedgerOk(ledger, h)
    ensures Ids(h.log) <= Ids(ledger) + h.forgotten
  {
  }

  // ---------- runs without some purges ----------

  predicate NoMesPurge(acts: seq<Action>) {
    forall a :: a in acts ==> !a.MesPurge?
  }

  predicate NoEdgePurge(acts: seq<Action>) {
    forall a :: a in acts ==> !a.EdgePurge?
  }

  predicate OnlyKnown(c: Config, acts: seq<Action>) {
    forall a :: a in acts && a.Sampled? ==> a.sample.equip in c.known
  }

  ghost predicate NonePurged(s: State) {
    s.hist.lost == {} && s.hist.doubled == 0
  }

  lemma NonePurgedStep(c: Config, s: State, a: Action)
    requires Inv(c, s) && NonePurged(s) && !a.EdgePurge?
    ensures NonePurged(Step(c, s, a))
  {
    hide BornOk, RowsOk, Covered, LostOk, NetOk, LogOk, LedgerOk, CountsOk, FlagsOk, PendingIds, Payload, Ids, Strangers,
         NextBatch, Batch, AllAccepted, ResentCount, Priority, NoteNg;
    if a.Acknowledge? && s.sender.Waiting? {
      InFlightPending(s.sender.batch, s.net[s.sender.req], s.queue, s.hist);
    }
  }

  lemma InFlightPending(batch: seq<Row>, items: seq<Item>, q: Queue, h: History)
    requires InFlightOk(batch, items, q, h) && h.lost == {}
    ensures Ids(items) - PendingIds(q.rows) == {}
  {
  }

  lemma {:induction false} NothingPurgedAtEdge(c: Config, acts: seq<Action>)
    requires NoEdgePurge(acts)
    ensures NonePurged(Run(c, acts))
  {
    hide Inv, Step;
    if acts != [] {
      var n := |acts| - 1;
      assert acts[n] in acts && forall a :: a in acts[..n] ==> a in acts;
      hide NonePurged;
      NothingPurgedAtEdge(c, acts[..n]);
      RunKeeps(c, acts[..n]);
      NonePurgedStep(c, Run(c, acts[..n]), acts[n]);
    }
  }

  ghost predicate BornKnown(c: Config, born: seq<Birth>) {
    forall k :: 0 <= k < |born| ==> born[k].item.equip in c.known
  }

  lemma BornKnownStep(c: Config, s: State, a: Action)
    requires BornKnown(c, s.hist.born) && (a.Sampled? ==> a.sample.equip in c.known)
    ensures BornKnown(c, Step(c, s, a).hist.born)
  {
    hide NextBatch, Payload, Fresh, Ids, PendingIds;
    var t := Step(c, s, a);
    if a.Sampled? && a.sample.readings != [] {
      var more := t.hist.born[|s.hist.born|..];
      assert t.hist.born == s.hist.born + more;
      forall k | 0 <= k < |t.hist.born|
        ensures t.hist.born[k].item.equip in c.known
      {
        if k >= |s.hist.born| { assert t.hist.born[k] == more[k - |s.hist.born|]; }
      }
    }
  }

  lemma {:induction false} OnlyKnownBorn(c: Config, acts: seq<Action>)
    requires OnlyKnown(c, acts)
    ensures BornKnown(c, Run(c, acts).hist.born)
  {
    hide Step;
    if acts != [] {
      var n := |acts| - 1;
      assert acts[n] in acts && forall a :: a in acts[..n] ==> a in acts;
      OnlyKnownBorn(c, acts[..n]);
      BornKnownStep(c, Run(c, acts[..n]), acts[n]);
    }
  }

  lemma {:induction false} CountTo(ids: set<nat>, n: nat)
    requires forall i: nat :: i in ids <==> 1 <= i <= n
    ensures |ids| == n
  {
    if n > 0 {
      CountTo(ids - {n}, n - 1);
    } else {
      assert ids == {};
    }
  }

  // ---------- storing once ----------

  /** A request is ingested that brings back a message: one inserted before and no longer in the ledger. */
  predicate Returns(c: Config, s: State, a: Action) {
    && a.Process? && a.req < |s.net|
    && exists m :: 0 <= m < |s.net[a.req]| && BringsBack(c, s, s.net[a.req][m])
  }

  predicate BringsBack(c: Config, s: State, x: Item) {
    x.equip in c.known && x.id in Ids(s.hist.log) && x.id !in Ids(s.ledger)
  }

  /** At no point of the run. */
  ghost predicate NothingReturns(c: Config, acts: seq<Action>) {
    forall n :: 0 <= n < |acts| ==> !Returns(c, Run(c, acts[..n]), acts[n])
  }

  lemma DistinctAppend(log: seq<Item>, added: seq<Item>)
    requires DistinctIds(added)
    ensures DistinctIds(log + added) <==> DistinctIds(log) && Ids(log) !! Ids(added)
  {
    var all := log + added;
    assert forall l :: 0 <= l < |log| ==> all[l] == log[l];
    assert forall m :: 0 <= m < |added| ==> all[|log| + m] == added[m];
    if i :| i in Ids(log) && i in Ids(added) {
      var l :| 0 <= l < |log| && log[l].id == i;
      var m :| 0 <= m < |added| && added[m].id == i;
      assert all[l].id == all[|log| + m].id;
    }
    if DistinctIds(log) && Ids(log) !! Ids(added) {
      forall l, m | 0 <= l < m < |all|
        ensures all[l].id != all[m].id
      {
        if l < |log| <= m {
          assert log[l].id in Ids(log) && added[m - |log|].id in Ids(added);
        } else if |log| <= l {
          assert added[l - |log|].id != added[m - |log|].id;
        }
      }
    }
  }

  lemma FreshMeets(c: Config, s: State, items: seq<Item>)
    ensures Ids(s.hist.log) !! Ids(Fresh(Ids(s.ledger), c.known, items)) <==>
            !exists m :: 0 <= m < |items| && BringsBack(c, s, items[m])
  {
    var added := Fresh(Ids(s.ledger), c.known, items);
    FreshFacts(Ids(s.ledger), c.known, items);
    FreshStoresTheMissing(Ids(s.ledger), c.known, items);
    hide Fresh;
    if i :| i in Ids(s.hist.log) && i in Ids(added) {
      var k :| 0 <= k < |added| && added[k].id == i;
      assert added[k] in added;
      var m :| 0 <= m < |items| && items[m] == added[k];
      assert BringsBack(c, s, items[m]);
    }
    if m :| 0 <= m < |items| && BringsBack(c, s, items[m]) {
      assert items[m] in items;
      assert items[m].id in Ids(added);
    }
  }

  lemma OnceStep(c: Config, s: State, a: Action)
    ensures DistinctIds(Step(c, s, a).hist.log) <==> DistinctIds(s.hist.log) && !Returns(c, s, a)
  {
    hide NextBatch, Payload, Fresh, Ids, PendingIds, Filter, AllAccepted, ResentCount, Marked, Purged, Old, DistinctIds,
         BringsBack;
    if a.Process? && a.req < |s.net| {
      var added := Fresh(Ids(s.ledger), c.known, s.net[a.req]);
      FreshFacts(Ids(s.ledger), c.known, s.net[a.req]);
      DistinctAppend(s.hist.log, added);
      FreshMeets(c, s, s.net[a.req]);
    }
  }

  /** A message is never stored twice if and only if no request ever brings one back: at each ingest, every message
      stored before that the request carries is still in the ledger.  This holds across purges of the MES
      as long as they do not delete a message that is still on its way again. */
  lemma {:induction false} StoredOnceExactly(c: Config, acts: seq<Action>)
    ensures DistinctIds(Run(c, acts).hist.log) <==> NothingReturns(c, acts)
  {
    hide Step, Returns, DistinctIds;
    if acts == [] {
      assert DistinctIds([]) by { NoneTwice(); }
    } else {
      var n := |acts| - 1;
      StoredOnceExactly(c, acts[..n]);
      OnceStep(c, Run(c, acts[..n]), acts[n]);
      assert forall k :: 0 <= k < n ==> acts[..n][..k] == acts[..k] && acts[..n][k] == acts[k];
    }
  }

  lemma NoneTwice()
    ensures DistinctIds([])
  {
  }

  ghost predicate Remembers(s: State) {
    s.hist.forgotten == {} && s.ledger == s.hist.log
  }

  lemma RemembersStep(c: Config, s: State, a: Action)
    requires Remembers(s) && !a.MesPurge?
    ensures Remembers(Step(c, s, a))
  {
    hide NextBatch, Payload, Fresh, Ids, PendingIds, Filter, AllAccepted, ResentCount, Marked, Purged, Old;
  }

  /** Unless the MES purges, it forgets nothing: the ledger is all that was ever inserted. */
  lemma {:induction false} NothingForgotten(c: Config, acts: seq<Action>)
    requires NoMesPurge(acts)
    ensures Remembers(Run(c, acts))
  {
    hide Step;
    if acts != [] {
      var n := |acts| - 1;
      assert acts[n] in acts && forall a :: a in acts[..n] ==> a in acts;
      NothingForgotten(c, acts[..n]);
      RemembersStep(c, Run(c, acts[..n]), acts[n]);
    }
  }

  /** In particular nothing returns unless the MES purges. */
  lemma UnpurgedNothingReturns(c: Config, acts: seq<Action>)
    requires NoMesPurge(acts)
    ensures NothingReturns(c, acts)
  {
    hide Run;
    forall n | 0 <= n < |acts|
      ensures !Returns(c, Run(c, acts[..n]), acts[n])
    {
      assert forall a :: a in acts[..n] ==> a in acts;
      NothingForgotten(c, acts[..n]);
    }
  }

  /** In every run a message is stored a second time only after the MES has forgotten it. */
  lemma StoredTwiceWasForgotten(c: Config, acts: seq<Action>, l: nat, m: nat)
    requires l < m < |Run(c, acts).hist.log| && Run(c, acts).hist.log[l].id == Run(c, acts).hist.log[m].id
    ensures Run(c, acts).hist.log[m].id in Run(c, acts).hist.forgotten
  {
    hide Run, Inv, LogOk;
    RunKeeps(c, acts);
    LogIsOk(c, Run(c, acts));
    LogRepeat(c, Run(c, acts).hist, l, m);
  }

  lemma EverStored(c: Config, s: State)
    requires Inv(c, s)
    ensures Ids(s.ledger) <= Ids(s.hist.log) && s.hist.forgotten <= Ids(s.hist.log)
  {
    hide BornOk, RowsOk, Covered, LostOk, NetOk, LogOk, AnswersOk, SenderOk, CountsOk, FlagsOk, Whole, Concat;
    forall i | i in Ids(s.ledger)
      ensures i in Ids(s.hist.log)
    {
      var m :| 0 <= m < |s.ledger| && s.ledger[m].id == i;
      assert s.ledger[m] in s.ledger;
      var n :| 0 <= n < |s.hist.log| && s.hist.log[n] == s.ledger[m];
    }
  }

  /** At most once, whatever the Edge purges, and the MES too as long as nothing returns: no message is ever inserted
      twice, and each numbered one is queued, was inserted, was purged at the Edge, or is foreign. */
  lemma AtMostOnce(c: Config, acts: seq<Action>)
    requires NothingReturns(c, acts)
    ensures var s := Run(c, acts);
            && DistinctIds(s.hist.log) && (NoMesPurge(acts) ==> s.ledger == s.hist.log)
            && forall i :: 1 <= i <= s.queue.seqNo ==>
                 || i in PendingIds(s.queue.rows) || i in Ids(s.hist.log) || i in s.hist.lost
                 || i in Strangers(s.hist.born, c.known)
  {
    hide Run, PendingIds, Ids, Strangers, Inv, NothingReturns;
    StoredOnceExactly(c, acts);
    if NoMesPurge(acts) { NothingForgotten(c, acts); }
    RunKeeps(c, acts);
    var s := Run(c, acts);
    EverStored(c, s);
    forall i | 1 <= i <= s.queue.seqNo
      ensures || i in PendingIds(s.queue.rows) || i in Ids(s.hist.log) || i in s.hist.lost
              || i in Strangers(s.hist.born, c.known)
    {
      NothingIsLost(c, acts, i);
    }
  }

  /** Exactly once: with all equipment known, nothing purged at the Edge and nothing returning, every message numbered so
      far is queued or was inserted into the ledger, once and exactly as it was sampled; as soon as the
      queue is empty the messages inserted are exactly 1..seq.  If the MES does not purge either, all of
      them are still there. */
  lemma ExactlyOnce(c: Config, acts: seq<Action>)
    requires NoEdgePurge(acts) && NothingReturns(c, acts) && OnlyKnown(c, acts)
    ensures var s := Run(c, acts); var log := s.hist.log;
            && (forall i :: 1 <= i <= s.queue.seqNo ==> i in PendingIds(s.queue.rows) || i in Ids(log))
            && DistinctIds(log) && Genuine(s.hist.born, log)
            && (s.queue.rows == [] ==> (forall i: nat :: i in Ids(log) <==> 1 <= i <= s.queue.seqNo) && |log| == s.queue.seqNo)
            && (NoMesPurge(acts) ==> s.ledger == log)
  {
    hide Run, PendingIds, Ids, Strangers, Inv, NothingReturns, Genuine, DistinctIds;
    var s := Run(c, acts);
    RunKeeps(c, acts);
    AtMostOnce(c, acts);
    NothingPurgedAtEdge(c, acts);
    OnlyKnownBorn(c, acts);
    NoStrangers(c, s.hist.born);
    LogIsOk(c, s);
    LogGenuine(c, s.hist);
    if s.queue.rows == [] {
      forall i: nat
        ensures i in Ids(s.hist.log) <==> 1 <= i <= s.queue.seqNo
      {
        NonePendingAt(i);
        if i in Ids(s.hist.log) { GenuineInRange(c, s, i); }
      }
      IdsCount(s.hist.log);
      CountTo(Ids(s.hist.log), s.queue.seqNo);
    }
  }

  lemma NoStrangers(c: Config, born: seq<Birth>)
    requires BornKnown(c, born)
    ensures Strangers(born, c.known) == {}
  {
  }

  lemma NonePendingAt(i: nat)
    ensures i !in PendingIds([])
  {
  }

  lemma GenuineInRange(c: Config, s: State, i: nat)
    requires Inv(c, s) && i in Ids(s.hist.log)
    ensures 1 <= i <= s.queue.seqNo
  {
    BornCount(c, s);
    LogIsOk(c, s);
    var m :| 0 <= m < |s.hist.log| && s.hist.log[m].id == i;
    LogIdsInRange(c, s.hist, m);
  }

  // ---------- order ----------

  lemma LogOrder(c: Config, h: History, l: nat, m: nat)
    requires LogOk(c, h) && l < m < |h.log| && Earlier(h.born, h.log[m].id, h.log[l].id)
    ensures h.log[m].id in h.lost + h.forgotten
  {
    var i := h.log[m].id;
    LogFacts(c, h, l, m, i);
    hide LogOk, Ids, Strangers, Earlier;
    if i in Ids(h.log[..l]) {
      IdAt(h.log[..l], i);
      var k :| 0 <= k < l && h.log[..l][k].id == i;
      LogRepeat(c, h, k, m);
    }
  }

  lemma IdAt(items: seq<Item>, i: nat)
    requires i in Ids(items)
    ensures exists k :: 0 <= k < |items| && items[k].id == i
  {
  }

  lemma LogRepeat(c: Config, h: History, k: nat, m: nat)
    requires LogOk(c, h) && k < m < |h.log| && h.log[k].id == h.log[m].id
    ensures h.log[m].id in h.forgotten
  {
  }

  lemma LogFacts(c: Config, h: History, l: nat, m: nat, i: nat)
    requires LogOk(c, h) && l < |h.log| && m < |h.log| && Earlier(h.born, i, h.log[l].id) && h.log[m].id == i
    ensures i in Ids(h.log[..l]) + h.lost
  {
    hide Genuine, Closed, Whole, AllKnown, Ids, Strangers, Earlier, RepeatsForgotten;
    ClosedAt(h.born, h.log, Excused(c, h), l, i);
    NotAStranger(h.born, h.log, c.known, h.log[m]);
  }

  lemma NotAStranger(born: seq<Birth>, items: seq<Item>, known: set<string>, x: Item)
    requires Genuine(born, items) && AllKnown(known, items) && x in items
    ensures x.id !in Strangers(born, known)
  {
    GenuineAt(born, items, x);
  }

  lemma LogIsOk(c: Config, s: State)
    requires Inv(c, s)
    ensures LogOk(c, s.hist)
  {
  }

  /** Whatever arrives late or again: when an earlier message of a priority is inserted after a later one,
      it had been purged at the Edge or forgotten at the MES before. */
  lemma OutOfOrderWasPurged(c: Config, acts: seq<Action>, l: nat, m: nat)
    requires var s := Run(c, acts);
             l < m < |s.hist.log| && Earlier(s.hist.born, s.hist.log[m].id, s.hist.log[l].id)
    ensures Run(c, acts).hist.log[m].id in Run(c, acts).hist.lost + Run(c, acts).hist.forgotten
  {
    hide Run, Inv, LogOk, Earlier;
    RunKeeps(c, acts);
    LogIsOk(c, Run(c, acts));
    LogOrder(c, Run(c, acts).hist, l, m);
  }

  /** Unless the Edge purges or something returns, whatever the MES purges: messages of one priority are inserted into the
      ledger strictly in the order of their numbers. */
  lemma OrderPerPriority(c: Config, acts: seq<Action>, l: nat, m: nat)
    requires NoEdgePurge(acts) && NothingReturns(c, acts) && l < m < |Run(c, acts).hist.log|
    ensures var s := Run(c, acts); var a, b := s.hist.log[l].id, s.hist.log[m].id;
            1 <= a <= |s.hist.born| && 1 <= b <= |s.hist.born|
            && (s.hist.born[a - 1].priority == s.hist.born[b - 1].priority ==> a < b)
  {
    hide Run, Inv, LogOk, NothingReturns;
    RunKeeps(c, acts);
    StoredOnceExactly(c, acts);
    NothingPurgedAtEdge(c, acts);
    var h := Run(c, acts).hist;
    LogIsOk(c, Run(c, acts));
    LogIdsInRange(c, h, l);
    LogIdsInRange(c, h, m);
    if Earlier(h.born, h.log[m].id, h.log[l].id) { LogOrderOnce(c, h, l, m); }
  }

  lemma OvertakenIsRepeated(c: Config, h: History, l: nat, m: nat)
    requires LogOk(c, h) && h.lost == {} && l < m < |h.log| && Earlier(h.born, h.log[m].id, h.log[l].id)
    ensures !DistinctIds(h.log)
  {
    LogFacts(c, h, l, m, h.log[m].id);
    hide LogOk, Ids, Earlier;
    IdAt(h.log[..l], h.log[m].id);
    var k :| 0 <= k < l && h.log[..l][k].id == h.log[m].id;
    assert h.log[k].id == h.log[m].id;
  }

  lemma LogOrderOnce(c: Config, h: History, l: nat, m: nat)
    requires LogOk(c, h) && h.lost == {} && DistinctIds(h.log) && l < m < |h.log|
    ensures !Earlier(h.born, h.log[m].id, h.log[l].id)
  {
    hide LogOk, DistinctIds, Earlier;
    if Earlier(h.born, h.log[m].id, h.log[l].id) { OvertakenIsRepeated(c, h, l, m); }
  }

  // ---------- the ledger is in the order of the log ----------

  lemma SubsequenceStep(c: Config, s: State, a: Action)
    requires Subsequence(s.ledger, s.hist.log)
    ensures Subsequence(Step(c, s, a).ledger, Step(c, s, a).hist.log)
  {
    hide NextBatch, Payload, Fresh, Ids, PendingIds, Filter, AllAccepted, ResentCount, Marked, Purged, Old, Subsequence;
    match a
    case Process(req) =>
      if req < |s.net| { SubsequenceAppend(s.ledger, s.hist.log, Fresh(Ids(s.ledger), c.known, s.net[req])); }
    case MesPurge(cutoff) => SubsequenceFilter(s.ledger, s.hist.log, (x: Item) => x.ts >= cutoff);
    case _ =>
  }

  /** In every run the ledger is what purges have left of the messages inserted, in the order they were inserted. */
  lemma {:induction false} LedgerIsWhatIsLeft(c: Config, acts: seq<Action>)
    ensures Subsequence(Run(c, acts).ledger, Run(c, acts).hist.log)
  {
    hide Step;
    if acts != [] {
      LedgerIsWhatIsLeft(c, acts[..|acts| - 1]);
      hide Subsequence;
      SubsequenceStep(c, Run(c, acts[..|acts| - 1]), acts[|acts| - 1]);
    }
  }

  /** So the ledger too lists the messages of one priority in the order of their numbers. */
  lemma LedgerOrder(c: Config, acts: seq<Action>, l: nat, m: nat)
    requires NoEdgePurge(acts) && NothingReturns(c, acts) && l < m < |Run(c, acts).ledger|
    ensures var s := Run(c, acts); var a, b := s.ledger[l].id, s.ledger[m].id;
            1 <= a <= |s.hist.born| && 1 <= b <= |s.hist.born|
            && (s.hist.born[a - 1].priority == s.hist.born[b - 1].priority ==> a < b)
  {
    hide Run, NothingReturns, Subsequence;
    LedgerIsWhatIsLeft(c, acts);
    var j, k := SubsequencePair(Run(c, acts).ledger, Run(c, acts).hist.log, l, m);
    OrderPerPriority(c, acts, j, k);
  }

  lemma LogIdsInRange(c: Config, h: History, m: nat)
    requires LogOk(c, h) && m < |h.log|
    ensures 1 <= h.log[m].id <= |h.born|
  {
  }

  // ---------- sample atomicity ----------

  /** A sample is in the ledger with all its messages or with none, in every request likewise, and is
      purged at the Edge as a whole. */
  lemma SamplesStayWhole(c: Config, acts: seq<Action>, i: nat, j: nat)
    requires SameRow(Run(c, acts).hist.born, i, j)
    ensures var s := Run(c, acts);
            && (i in Ids(s.ledger) <==> j in Ids(s.ledger))
            && (i in s.hist.lost <==> j in s.hist.lost)
            && (i in PendingIds(s.queue.rows) <==> j in PendingIds(s.queue.rows))
            && (forall q :: 0 <= q < |s.net| ==> (i in Ids(s.net[q]) <==> j in Ids(s.net[q])))
  {
    RunKeeps(c, acts);
    var s := Run(c, acts);
    PendingWhole(s.hist.born, s.queue.rows);
    hide Run, RowsOk, PendingIds, Ids, Genuine, Closed, DistinctIds;
    assert SameRow(s.hist.born, j, i);
  }

  // ---------- answers, accounts and flags ----------

  /** The sender's check of the answer never fails. */
  lemma AnswersAccept(c: Config, acts: seq<Action>)
    ensures var s := Run(c, acts);
            s.sender.Waiting? && s.sender.req in s.answers ==>
              AllAccepted(Payload(s.sender.batch), s.answers[s.sender.req])
  {
    RunKeeps(c, acts);
    var s := Run(c, acts);
    if s.sender.Waiting? && s.sender.req in s.answers { AnswerAcceptsAll(c, s); }
  }

  /** Every message is counted once as pending, sent or purged, except those purged while in flight and
      acknowledged all the same, which count twice. */
  lemma Accounts(c: Config, acts: seq<Action>)
    ensures var s := Run(c, acts);
            && ItemCount(s.queue.rows) + s.queue.sent + s.queue.purged == s.queue.seqNo + s.hist.doubled
            && s.queue.resent <= s.queue.sent
            && (NoEdgePurge(acts) ==> s.hist.doubled == 0)
  {
    RunKeeps(c, acts);
    PendingCount(Run(c, acts).hist.born, Run(c, acts).queue.rows);
    if NoEdgePurge(acts) { NothingPurgedAtEdge(c, acts); }
  }

  /** A queued sample is flagged as resent exactly when the link was known to be down as it came in, or a
      send has failed since; so while the link is known down everything queued is flagged. */
  lemma FlagsAreExact(c: Config, acts: seq<Action>, r: Row)
    requires r in Run(c, acts).queue.rows
    ensures var s := Run(c, acts);
            && r.items != [] && 1 <= r.items[0].id <= |s.hist.born|
            && (Flag(r) <==> s.hist.born[r.items[0].id - 1].down
                             || s.hist.born[r.items[0].id - 1].failures < s.hist.failures)
            && (s.link == Down ==> Flag(r))
  {
    hide Run, Inv;
    RunKeeps(c, acts);
    RowFlag(c, Run(c, acts), r);
  }

  lemma RowFlag(c: Config, s: State, r: Row)
    requires Inv(c, s) && r in s.queue.rows
    ensures r.items != [] && 1 <= r.items[0].id <= |s.hist.born|
    ensures Flag(r) <==> s.hist.born[r.items[0].id - 1].down || s.hist.born[r.items[0].id - 1].failures < s.hist.failures
    ensures s.link == Down ==> Flag(r)
  {
    hide BornOk, Covered, LostOk, NetOk, LogOk, LedgerOk, AnswersOk, SenderOk, CountsOk;
    var m :| 0 <= m < |s.queue.rows| && s.queue.rows[m] == r;
    assert RowOk(s.hist.born, s.queue.rows[m]) && RowFlagsOk(s.hist, s.queue.rows[m]);
  }
}
