// What a run has left in the state of the Edge, told by the actions of the run: the priority of a message, the state of
// the line, and when a row was stored.

module DeliveryTrace {
  import opened Outcomes
  import opened Sequences
  import opened EdgeBuffer
  import opened MesLedger
  import opened Delivery
  import opened DeliveryInvariant
  import opened DeliverySteps
  import opened DeliveryIngest
  import opened DeliveryQueue
  import opened DeliverySample
  import opened DeliveryTheorems
  import opened SamplePath

  // ---------- where the samples were taken ----------

  predicate Takes(a: Action) {
    a.Sampled? && a.sample.readings != []
  }

  /** The actions that took a sample; the r-th makes row r. */
  function TakenAt(acts: seq<Action>): (at: seq<nat>)
    ensures forall j :: 0 <= j < |at| ==> at[j] < |acts| && Takes(acts[at[j]])
    ensures forall i, j :: 0 <= i < j < |at| ==> at[i] < at[j]
  {
    if acts == [] then []
    else
      var n := |acts| - 1;
      var before := TakenAt(acts[..n]);
      assert forall j :: 0 <= j < |before| ==> acts[..n][before[j]] == acts[before[j]];
      if Takes(acts[n]) then before + [n] else before
  }

  lemma {:induction false} TakenAtIsTaken(acts: seq<Action>)
    ensures |TakenAt(acts)| == |Taken(acts)|
    ensures forall j :: 0 <= j < |TakenAt(acts)| ==> acts[TakenAt(acts)[j]].sample == Taken(acts)[j]
  {
    if acts != [] { TakenAtIsTaken(acts[..|acts| - 1]); }
  }

  // ---------- the NG counts ----------

  ghost predicate FirstNg(readings: seq<Reading>, n: real) {
    exists i :: 0 <= i < |readings| && readings[i] == Reading("ng_cnt", n) && NoneBefore(readings, i)
  }

  predicate NoneBefore(readings: seq<Reading>, i: nat)
    requires i <= |readings|
  {
    forall j :: 0 <= j < i ==> readings[j].key != "ng_cnt"
  }

  /** The action takes a sample of the equipment with this NG count. */
  ghost predicate NgAt(a: Action, equip: string, n: real) {
    a.Sampled? && a.sample.equip == equip && FirstNg(a.sample.readings, n)
  }

  ghost predicate HasNg(a: Action, equip: string) {
    exists n :: NgAt(a, equip, n)
  }

  /** The q-th action took the last such sample since the last restart. */
  ghost predicate LatestAt(acts: seq<Action>, equip: string, m: real, q: nat) {
    && q < |acts| && NgAt(acts[q], equip, m)
    && forall k :: q < k < |acts| ==> !acts[k].EdgeRestart? && !HasNg(acts[k], equip)
  }

  ghost predicate Latest(acts: seq<Action>, equip: string, m: real) {
    exists q: nat :: LatestAt(acts, equip, m, q)
  }

  /** The p-th action takes a sample whose NG count is above the last one of the equipment since the last restart. */
  ghost predicate RisesAt(acts: seq<Action>, p: nat) {
    && p < |acts| && acts[p].Sampled?
    && exists n, m :: NgAt(acts[p], acts[p].sample.equip, n) && Latest(acts[..p], acts[p].sample.equip, m) && m < n
  }

  lemma {:induction false} LookupIsFirst(readings: seq<Reading>, n: real)
    ensures Lookup(readings, "ng_cnt") == Some(n) <==> FirstNg(readings, n)
  {
    if readings != [] {
      var rest := readings[1..];
      LookupIsFirst(rest, n);
      if readings[0].key == "ng_cnt" {
        if FirstNg(readings, n) {
          var i :| 0 <= i < |readings| && readings[i] == Reading("ng_cnt", n) && NoneBefore(readings, i);
          assert i == 0;
        }
        if readings[0].value == n { assert readings[0] == Reading("ng_cnt", n) && NoneBefore(readings, 0); }
      } else {
        if FirstNg(readings, n) {
          var i :| 0 <= i < |readings| && readings[i] == Reading("ng_cnt", n) && NoneBefore(readings, i);
          assert rest[i - 1] == readings[i] && forall j :: 0 <= j < i - 1 ==> rest[j] == readings[j + 1];
          assert NoneBefore(rest, i - 1);
        }
        if FirstNg(rest, n) {
          var i :| 0 <= i < |rest| && rest[i] == Reading("ng_cnt", n) && NoneBefore(rest, i);
          assert readings[i + 1] == rest[i];
          assert forall j :: 1 <= j < i + 1 ==> readings[j] == rest[j - 1];
          assert NoneBefore(readings, i + 1);
        }
      }
    }
  }

  lemma NoNg(readings: seq<Reading>)
    ensures Lookup(readings, "ng_cnt") == None <==> forall n :: !FirstNg(readings, n)
  {
    var found := Lookup(readings, "ng_cnt");
    if found.Some? { LookupIsFirst(readings, found.value); }
    forall n | FirstNg(readings, n)
      ensures found.Some?
    {
      LookupIsFirst(readings, n);
    }
  }

  /** The latest count after one action more. */
  lemma LatestStep(acts: seq<Action>, a: Action, equip: string, m: real)
    ensures Latest(acts + [a], equip, m) <==>
            if a.EdgeRestart? then false else if HasNg(a, equip) then NgAt(a, equip, m) else Latest(acts, equip, m)
  {
    var all, n := acts + [a], |acts|;
    hide NgAt, HasNg;
    if Latest(all, equip, m) {
      var q: nat :| LatestAt(all, equip, m, q);
      if q < n {
        assert !all[n].EdgeRestart? && !HasNg(all[n], equip);
        assert forall k :: q < k < n ==> all[k] == acts[k];
        assert LatestAt(acts, equip, m, q);
      } else {
        NgHas(a, equip, m);
      }
    }
    if !a.EdgeRestart? && !HasNg(a, equip) && Latest(acts, equip, m) {
      var q: nat :| LatestAt(acts, equip, m, q);
      assert forall k :: q < k < n ==> all[k] == acts[k];
      assert LatestAt(all, equip, m, q);
    }
    if !a.EdgeRestart? && HasNg(a, equip) && NgAt(a, equip, m) {
      assert all[n] == a;
      assert LatestAt(all, equip, m, n);
    }
    if NgAt(a, equip, m) { NgIsSample(a, equip, m); }
  }

  lemma NgHas(a: Action, equip: string, m: real)
    requires NgAt(a, equip, m)
    ensures HasNg(a, equip)
  {
  }

  lemma NgIsSample(a: Action, equip: string, m: real)
    requires NgAt(a, equip, m)
    ensures Takes(a) && a.sample.equip == equip
  {
  }

  /** The Edge remembers the latest counts. */
  ghost predicate Remembered(mdNg: map<string, real>, acts: seq<Action>) {
    forall equip, m :: Latest(acts, equip, m) <==> equip in mdNg && mdNg[equip] == m
  }

  lemma MdNgStep(c: Config, s: State, a: Action, equip: string, m: real)
    ensures var t := Step(c, s, a).mdNg;
            equip in t && t[equip] == m <==>
            if a.EdgeRestart? then false
            else if HasNg(a, equip) then NgAt(a, equip, m)
            else equip in s.mdNg && s.mdNg[equip] == m
  {
    hide NextBatch, Payload, Fresh, Ids, PendingIds, Filter, AllAccepted, ResentCount, Marked, Purged, Old, Lookup, FirstNg;
    if a.Sampled? {
      NoNg(a.sample.readings);
      LookupIsFirst(a.sample.readings, m);
      var found := Lookup(a.sample.readings, "ng_cnt");
      if found.Some? {
        LookupIsFirst(a.sample.readings, found.value);
        assert a.sample.equip == equip ==> NgAt(a, equip, found.value);
      }
      NoReadings(m);
    }
  }

  lemma NoReadings(m: real)
    ensures !FirstNg([], m) && Lookup([], "ng_cnt") == None
  {
  }

  lemma {:induction false} RunRemembers(c: Config, acts: seq<Action>)
    ensures Remembered(Run(c, acts).mdNg, acts)
  {
    hide Step, Latest;
    if acts == [] {
      forall equip, m
        ensures !Latest([], equip, m)
      {
        NothingLatest(equip, m);
      }
    } else {
      var n := |acts| - 1;
      RunRemembers(c, acts[..n]);
      assert acts == acts[..n] + [acts[n]];
      hide NgAt, HasNg;
      forall equip, m
        ensures Latest(acts, equip, m) <==> equip in Run(c, acts).mdNg && Run(c, acts).mdNg[equip] == m
      {
        LatestStep(acts[..n], acts[n], equip, m);
        MdNgStep(c, Run(c, acts[..n]), acts[n], equip, m);
      }
    }
  }

  lemma NothingLatest(equip: string, m: real)
    ensures !Latest([], equip, m)
  {
  }

  // ---------- the state of the line ----------

  /** What an action of the sender finds out about the line: an answer, a failure, or nothing; a restart forgets it. */
  function Finding(c: Config, s: State, a: Action): Option<Link> {
    match a
    case Acknowledge => if s.sender.Waiting? && s.sender.req in s.answers then Some(Up) else None
    case Fail => if s.sender.Waiting? then Some(Down) else None
    case LinkFault => if s.sender == Idle && NextBatch(c, s) != [] then Some(Down) else None
    case EdgeRestart => Some(Unknown)
    case _ => None
  }

  function LastFinding(c: Config, acts: seq<Action>): Link {
    if acts == [] then Unknown
    else
      var n := |acts| - 1;
      match Finding(c, Run(c, acts[..n]), acts[n])
      case Some(found) => found
      case None => LastFinding(c, acts[..n])
  }

  function FailuresIn(c: Config, acts: seq<Action>): nat {
    if acts == [] then 0
    else
      var n := |acts| - 1;
      FailuresIn(c, acts[..n]) + if Finding(c, Run(c, acts[..n]), acts[n]) == Some(Down) then 1 else 0
  }

  lemma LinkStep(c: Config, s: State, a: Action)
    requires Inv(c, s)
    ensures Step(c, s, a).link == match Finding(c, s, a) case Some(found) => found case None => s.link
    ensures Step(c, s, a).hist.failures == s.hist.failures + if Finding(c, s, a) == Some(Down) then 1 else 0
  {
    hide Inv, NextBatch, Payload, Fresh, Ids, PendingIds, Filter, AllAccepted, ResentCount, Marked, Purged, Old, Lookup, RowIds,
         Births, Numbered, ToRawItems, Priority, NoteNg, MessageIds, Acked;
    match a
    case Acknowledge => if s.sender.Waiting? && s.sender.req in s.answers { AnswerAcceptsAll(c, s); }
    case Sampled(sample, now) => SampleLeavesLink(s, sample, now);
    case _ =>
  }

  lemma SampleLeavesLink(s: State, sample: Sample, now: int)
    ensures TakeSample(s, sample, now).link == s.link && TakeSample(s, sample, now).hist.failures == s.hist.failures
  {
    hide Births, Numbered, ToRawItems, Priority, NoteNg, Enqueued;
  }

  /** In every run the line is what the last finding says: up after an answered send, down after a failed one, unknown from
      the start and from each restart on; and the failures counted are the failed sends. */
  lemma {:induction false} LinkIsTheLastFinding(c: Config, acts: seq<Action>)
    ensures Run(c, acts).link == LastFinding(c, acts) && Run(c, acts).hist.failures == FailuresIn(c, acts)
  {
    hide Step, Inv;
    if acts != [] {
      var n := |acts| - 1;
      LinkIsTheLastFinding(c, acts[..n]);
      RunKeeps(c, acts[..n]);
      LinkStep(c, Run(c, acts[..n]), acts[n]);
    }
  }

  // ---------- births ----------

  /** The message has the priority its sample calls for, and remembers the line and the failures as they were. */
  ghost predicate BornAsTold(c: Config, acts: seq<Action>, b: Birth) {
    && 1 <= b.row <= |TakenAt(acts)|
    && var p := TakenAt(acts)[b.row - 1];
       && b.priority == (if RisesAt(acts, p) then URGENT else NORMAL)
       && (b.down <==> Run(c, acts[..p]).link == Down)
       && b.failures == Run(c, acts[..p]).hist.failures
  }

  ghost predicate AllBornAsTold(c: Config, acts: seq<Action>, born: seq<Birth>) {
    forall k :: 0 <= k < |born| ==> BornAsTold(c, acts, born[k])
  }

  lemma TakenAtSnoc(acts: seq<Action>, a: Action)
    ensures TakenAt(acts + [a]) == if Takes(a) then TakenAt(acts) + [|acts|] else TakenAt(acts)
  {
    assert (acts + [a])[..|acts|] == acts;
  }

  lemma ToldLater(c: Config, acts: seq<Action>, a: Action, b: Birth)
    requires BornAsTold(c, acts, b)
    ensures BornAsTold(c, acts + [a], b)
  {
    TakenAtSnoc(acts, a);
    var p := TakenAt(acts)[b.row - 1];
    assert (acts + [a])[..p] == acts[..p] && (acts + [a])[p] == acts[p];
    hide Run, TakenAt, Latest, NgAt;
  }

  /** The priority given to a sample. */
  lemma PriorityIsRise(mdNg: map<string, real>, acts: seq<Action>, sample: Sample, now: int)
    requires Remembered(mdNg, acts)
    ensures Priority(mdNg, sample) == if RisesAt(acts + [Sampled(sample, now)], |acts|) then URGENT else NORMAL
  {
    var a := Sampled(sample, now);
    var all := acts + [a];
    assert all[..|acts|] == acts && all[|acts|] == a;
    var found := Lookup(sample.readings, "ng_cnt");
    NoNg(sample.readings);
    if found.Some? { LookupIsFirst(sample.readings, found.value); }
    hide Lookup, FirstNg, Latest;
    if RisesAt(all, |acts|) {
      var n, m :| NgAt(a, sample.equip, n) && Latest(acts, sample.equip, m) && m < n;
      LookupIsFirst(sample.readings, n);
      assert sample.equip in mdNg && mdNg[sample.equip] == m;
    }
    if found.Some? && sample.equip in mdNg && found.value > mdNg[sample.equip] {
      assert NgAt(a, sample.equip, found.value) && Latest(acts, sample.equip, mdNg[sample.equip]);
      assert RisesAt(all, |acts|);
    }
  }

  lemma NewbornsToldAt(c: Config, acts: seq<Action>, sample: Sample, now: int, b: Birth)
    requires sample.readings != [] && Remembered(Run(c, acts).mdNg, acts) && b.row == |TakenAt(acts)| + 1
    requires b.priority == Priority(Run(c, acts).mdNg, sample) && b.failures == Run(c, acts).hist.failures
    requires b.down <==> Run(c, acts).link == Down
    ensures BornAsTold(c, acts + [Sampled(sample, now)], b)
  {
    hide Run, Remembered, Priority, RisesAt, TakenAt;
    TakenAtSnoc(acts, Sampled(sample, now));
    PriorityIsRise(Run(c, acts).mdNg, acts, sample, now);
    assert (acts + [Sampled(sample, now)])[..|acts|] == acts;
  }

  lemma BornStep(c: Config, s: State, a: Action)
    ensures if Takes(a) then
              Step(c, s, a).hist.born ==
              s.hist.born + Births(Numbered(ToRawItems(a.sample), s.queue.seqNo + 1), s.queue.nextRow, Priority(s.mdNg, a.sample),
                                   s.hist.failures, s.link == Down)
            else Step(c, s, a).hist.born == s.hist.born
  {
    hide NextBatch, Payload, Fresh, Ids, PendingIds, Filter, AllAccepted, ResentCount, Marked, Purged, Old, Lookup, Births;
  }

  lemma {:induction false} RunBornAsTold(c: Config, acts: seq<Action>)
    ensures AllBornAsTold(c, acts, Run(c, acts).hist.born)
  {
    hide Step, BornAsTold;
    if acts != [] {
      var n := |acts| - 1;
      var before, a := acts[..n], acts[n];
      var s := Run(c, before);
      RunBornAsTold(c, before);
      RunRemembers(c, before);
      RunBornFrom(c, before);
      TakenAtIsTaken(before);
      BornStep(c, s, a);
      assert acts == before + [a];
      hide Run, Remembered, BornFrom, TakenAt, Births, Priority;
      var t := Step(c, s, a);
      forall k | 0 <= k < |t.hist.born|
        ensures BornAsTold(c, acts, t.hist.born[k])
      {
        if k < |s.hist.born| {
          assert t.hist.born[k] == s.hist.born[k];
          ToldLater(c, before, a, s.hist.born[k]);
        } else {
          NewbornsToldAt(c, before, a.sample, a.now, t.hist.born[k]);
        }
      }
      assert t == Run(c, acts) by { RunSnoc(c, before, a); }
    }
  }

  lemma ToldAs(c: Config, acts: seq<Action>, b: Birth)
    requires BornAsTold(c, acts, b)
    ensures 1 <= b.row <= |TakenAt(acts)|
    ensures var p := TakenAt(acts)[b.row - 1];
            b.priority == (if RisesAt(acts, p) then URGENT else NORMAL) && (b.down <==> LastFinding(c, acts[..p]) == Down)
  {
    hide Run, RisesAt, LastFinding, TakenAt;
    LinkIsTheLastFinding(c, acts[..TakenAt(acts)[b.row - 1]]);
  }

  /** In every run, for every message: it is urgent if and only if its sample carries an NG count, an earlier sample of the
      same equipment since the last restart of the Edge carried one, and the latest of these is smaller; and
      otherwise it is normal.  It remembers whether the line was known down when its sample was taken. */
  lemma UrgentExactly(c: Config, acts: seq<Action>, i: nat)
    requires 1 <= i <= |Run(c, acts).hist.born|
    ensures |TakenAt(acts)| == |Taken(acts)|
    ensures var b := Run(c, acts).hist.born[i - 1];
            && 1 <= b.row <= |TakenAt(acts)|
            && var p := TakenAt(acts)[b.row - 1];
               && acts[p].sample == Taken(acts)[b.row - 1]
               && b.priority == (if RisesAt(acts, p) then URGENT else NORMAL)
               && (b.down <==> LastFinding(c, acts[..p]) == Down)
  {
    hide Run, RisesAt, LastFinding, TakenAt, BornAsTold, Taken;
    RunBornAsTold(c, acts);
    TakenAtIsTaken(acts);
    ToldAs(c, acts, Run(c, acts).hist.born[i - 1]);
  }

  // ---------- when a row was stored ----------

  ghost predicate StoredThen(acts: seq<Action>, rows: seq<Row>) {
    forall m :: 0 <= m < |rows| ==> 1 <= rows[m].id <= |TakenAt(acts)| && rows[m].created == acts[TakenAt(acts)[rows[m].id - 1]].now
  }

  lemma StoredFiltered(acts: seq<Action>, rows: seq<Row>, keep: Row -> bool)
    requires StoredThen(acts, rows)
    ensures StoredThen(acts, Filter(rows, keep))
  {
    hide TakenAt;
    var kept := Filter(rows, keep);
    forall m | 0 <= m < |kept|
      ensures 1 <= kept[m].id <= |TakenAt(acts)| && kept[m].created == acts[TakenAt(acts)[kept[m].id - 1]].now
    {
      assert kept[m] in kept;
      var k :| 0 <= k < |rows| && rows[k] == kept[m];
    }
  }

  lemma StoredLonger(acts: seq<Action>, a: Action, rows: seq<Row>)
    requires StoredThen(acts, rows)
    ensures StoredThen(acts + [a], rows)
  {
    TakenAtSnoc(acts, a);
    hide TakenAt;
    assert forall j :: 0 <= j < |TakenAt(acts)| ==> (acts + [a])[TakenAt(acts)[j]] == acts[TakenAt(acts)[j]];
  }

  lemma StoredMarked(acts: seq<Action>, rows: seq<Row>)
    requires StoredThen(acts, rows)
    ensures StoredThen(acts, Marked(rows))
  {
    hide TakenAt;
  }

  lemma StoredTaken(s: State, acts: seq<Action>, sample: Sample, now: int)
    requires StoredThen(acts, s.queue.rows) && s.queue.nextRow == |TakenAt(acts)| + 1 && sample.readings != []
    ensures StoredThen(acts + [Sampled(sample, now)], TakeSample(s, sample, now).queue.rows)
  {
    var a := Sampled(sample, now);
    TakenAtSnoc(acts, a);
    StoredLonger(acts, a, s.queue.rows);
    assert (acts + [a])[|acts|] == a;
    hide TakenAt, Births, Numbered, ToRawItems, Priority, NoteNg;
    assert ToRawItems(sample) != [];
    var rows := TakeSample(s, sample, now).queue.rows;
    assert rows[..|s.queue.rows|] == s.queue.rows;
    assert rows[|s.queue.rows|].id == s.queue.nextRow && rows[|s.queue.rows|].created == now;
  }

  lemma RowsStay(c: Config, s: State, a: Action)
    ensures match a
            case Sampled(sample, now) => Step(c, s, a) == TakeSample(s, sample, now)
            case LinkFault => Step(c, s, a).queue.rows == s.queue.rows || Step(c, s, a).queue.rows == Marked(s.queue.rows)
            case Fail => Step(c, s, a).queue.rows == s.queue.rows || Step(c, s, a).queue.rows == Marked(s.queue.rows)
            case Acknowledge =>
              || Step(c, s, a).queue.rows == s.queue.rows
              || (s.sender.Waiting?
                  && Step(c, s, a).queue.rows == Filter(s.queue.rows, (r: Row) => r.id !in RowIds(s.sender.batch)))
            case EdgePurge(cut) => Step(c, s, a).queue == Purged(s.queue, cut)
            case _ => Step(c, s, a).queue.rows == s.queue.rows
  {
    hide NextBatch, Payload, Fresh, Ids, PendingIds, AllAccepted, ResentCount, Old, Filter, Marked, Purged, RowIds, TakeSample,
         MessageIds;
  }

  lemma StoredStep(c: Config, s: State, acts: seq<Action>, a: Action)
    requires StoredThen(acts, s.queue.rows) && s.queue.nextRow == |TakenAt(acts)| + 1
    ensures StoredThen(acts + [a], Step(c, s, a).queue.rows)
  {
    hide StoredThen, Step, TakeSample, Filter, Marked, RowIds, TakenAt, Purged;
    StoredLonger(acts, a, s.queue.rows);
    RowsStay(c, s, a);
    match a
    case Sampled(sample, now) =>
      if sample.readings != [] { StoredTaken(s, acts, sample, now); } else { NothingTaken(s, sample, now); }
    case LinkFault => StoredMarked(acts + [a], s.queue.rows);
    case Fail => StoredMarked(acts + [a], s.queue.rows);
    case Acknowledge =>
      if s.sender.Waiting? { StoredFiltered(acts + [a], s.queue.rows, (r: Row) => r.id !in RowIds(s.sender.batch)); }
    case EdgePurge(cut) =>
      PurgedRows(s.queue, cut);
      StoredFiltered(acts + [a], s.queue.rows, (r: Row) => r.created >= cut);
    case _ =>
  }

  lemma NothingTaken(s: State, sample: Sample, now: int)
    requires sample.readings == []
    ensures TakeSample(s, sample, now) == s
  {
  }

  lemma PurgedRows(q: Queue, cut: int)
    ensures Purged(q, cut).rows == q.rows || Purged(q, cut).rows == Filter(q.rows, (r: Row) => r.created >= cut)
  {
    hide Old, Filter, ItemCount;
  }

  lemma {:induction false} RunStoredThen(c: Config, acts: seq<Action>)
    ensures StoredThen(acts, Run(c, acts).queue.rows)
  {
    hide Step, StoredThen;
    if acts == [] {
      assert StoredThen([], []) by { NothingStored(); }
    } else {
      var n := |acts| - 1;
      RunStoredThen(c, acts[..n]);
      RunBornFrom(c, acts[..n]);
      TakenAtIsTaken(acts[..n]);
      hide BornFrom, TakenAt;
      StoredStep(c, Run(c, acts[..n]), acts[..n], acts[n]);
      assert acts == acts[..n] + [acts[n]];
    }
  }

  lemma NothingStored()
    ensures StoredThen([], [])
  {
  }

  /** A purge of the Edge deletes exactly the queued samples that were taken before the cut. */
  lemma PurgeIsByAge(c: Config, acts: seq<Action>, cut: int, i: nat)
    requires i in PendingIds(Run(c, acts).queue.rows)
    ensures 1 <= i <= |Run(c, acts).hist.born| && 1 <= Run(c, acts).hist.born[i - 1].row <= |TakenAt(acts)|
    ensures i in PendingIds(Run(c, acts + [EdgePurge(cut)]).queue.rows) <==>
            acts[TakenAt(acts)[Run(c, acts).hist.born[i - 1].row - 1]].now >= cut
  {
    hide Inv, RowsOk, PendingIds, TakenAt, Step;
    var s := Run(c, acts);
    RunKeeps(c, acts);
    RunStoredThen(c, acts);
    RunSnoc(c, acts, EdgePurge(cut));
    hide Run;
    RowsAreOk(c, s);
    var r := PendingRow(s.hist.born, s.queue.rows, i);
    PurgedAre(c, s, cut);
    FilteredPending(s.hist.born, s.queue.rows, (r: Row) => r.created >= cut, i, r);
  }

  lemma RowsAreOk(c: Config, s: State)
    requires Inv(c, s)
    ensures RowsOk(s.hist.born, s.queue.rows)
  {
  }

  lemma PurgedAre(c: Config, s: State, cut: int)
    requires Inv(c, s)
    ensures Step(c, s, EdgePurge(cut)).queue.rows == Filter(s.queue.rows, (r: Row) => r.created >= cut)
  {
    hide Inv, RowsOk, Old, PendingIds, Filter, ItemCount;
    RowsAreOk(c, s);
    assert Step(c, s, EdgePurge(cut)).queue == Purged(s.queue, cut) by { hide Purged; }
    hide Purged, Step;
    PurgedShape(s.hist.born, s.queue, cut);
  }

  // ---------- what a purge of the MES deletes ----------

  lemma LedgerStep(c: Config, s: State, a: Action, x: Item)
    requires x in s.ledger
    ensures x in Step(c, s, a).ledger <==> (a.MesPurge? ==> x.ts >= a.cutoff)
  {
    hide NextBatch, Payload, Fresh, Ids, PendingIds, AllAccepted, ResentCount, Marked, Purged, Old, Priority, NoteNg, Births,
         Numbered, ToRawItems, MessageIds;
  }

  lemma StoredIsGenuine(c: Config, s: State, x: Item)
    requires Inv(c, s) && x in s.ledger
    ensures 1 <= x.id <= |s.hist.born| && s.hist.born[x.id - 1].item.ts == x.ts
  {
    hide BornOk, RowsOk, Covered, LostOk, NetOk, AnswersOk, SenderOk, CountsOk, FlagsOk, Closed, Whole, AllKnown, RepeatsForgotten,
         DistinctIds, Ids, Excused, Concat;
    assert Genuine(s.hist.born, s.hist.log) && x in s.hist.log;
    var m :| 0 <= m < |s.hist.log| && s.hist.log[m] == x;
    assert x.(resend := false) == s.hist.born[x.id - 1].item;
  }

  lemma RowOfItem(c: Config, s: State, taken: seq<Sample>, x: Item)
    requires Inv(c, s) && BornFrom(s.hist.born, taken) && x in s.ledger
    ensures 1 <= x.id <= |s.hist.born| && 1 <= s.hist.born[x.id - 1].row <= |taken|
    ensures x.ts == taken[s.hist.born[x.id - 1].row - 1].ts
  {
    hide Inv, RowHasBirth, RowVals, ReadingVals, Lookup;
    StoredIsGenuine(c, s, x);
    assert BirthFrom(s.hist.born[x.id - 1], taken);
  }

  /** What the ledger holds stays through every action but a purge of the MES, and that deletes exactly the values
      of samples taken before its cutoff. */
  lemma LedgerLosesByAge(c: Config, acts: seq<Action>, a: Action, x: Item)
    requires x in Run(c, acts).ledger
    ensures 1 <= x.id <= |Run(c, acts).hist.born| && 1 <= Run(c, acts).hist.born[x.id - 1].row <= |Taken(acts)|
    ensures x in Run(c, acts + [a]).ledger
            <==> (a.MesPurge? ==> Taken(acts)[Run(c, acts).hist.born[x.id - 1].row - 1].ts >= a.cutoff)
  {
    hide Inv, Step, BornFrom, Taken;
    var s := Run(c, acts);
    RunKeeps(c, acts);
    RunBornFrom(c, acts);
    RunSnoc(c, acts, a);
    hide Run;
    RowOfItem(c, s, Taken(acts), x);
    LedgerStep(c, s, a, x);
  }
}
