// From the sensor to the alarm and the run log: what the MES derives for equipment that is never urgent
// depends on its samples alone, whatever the line, the Edge and the MES went through in between.

module EndToEnd {
  import opened Outcomes
  import Alarms
  import AlarmHistory
  import AlarmRuns
  import D = Delivery
  import DT = DeliveryTheorems
  import EdgeBuffer
  import L = MesLedger
  import RunLog
  import S = Sequences
  import SamplePath
  import Transparency
  import ValueCodec

  // ---------- what a handler of `route` sees ----------

  /** What a handler that looks at some calls sees of those for one equipment. */
  function Seen<R>(calls: seq<L.Group>, equip: string, view: L.Group -> Option<R>): seq<R> {
    if calls == [] then []
    else
      var g := calls[|calls| - 1];
      Seen(calls[..|calls| - 1], equip, view) + (if g.equip == equip && view(g).Some? then [view(g).value] else [])
  }

  lemma {:induction false} OnlyItsCalls<R>(calls: seq<L.Group>, equip: string, view: L.Group -> Option<R>)
    ensures Seen(SamplePath.For(calls, equip), equip, view) == Seen(calls, equip, view)
  {
    if calls != [] {
      var n := |calls| - 1;
      var kept := SamplePath.For(calls[..n], equip);
      OnlyItsCalls(calls[..n], equip, view);
      assert (kept + [calls[n]])[..|kept|] == kept;
    }
  }

  lemma {:induction false} SeenPrefix<R>(calls: seq<L.Group>, n: nat, equip: string, view: L.Group -> Option<R>)
    requires n <= |calls|
    ensures Seen(calls[..n], equip, view) <= Seen(calls, equip, view)
    decreases |calls| - n
  {
    if n < |calls| {
      SeenPrefix(calls, n + 1, equip, view);
      assert calls[..n + 1][..n] == calls[..n];
    } else {
      assert calls[..n] == calls;
    }
  }

  ghost predicate Increasing(calls: seq<L.Group>, equip: string) {
    forall i, j :: 0 <= i < j < |calls| && calls[i].equip == equip && calls[j].equip == equip ==> calls[i].ts < calls[j].ts
  }

  lemma {:induction false} SeenFrom<R>(calls: seq<L.Group>, equip: string, view: L.Group -> Option<R>, r: R) returns (i: nat)
    requires r in Seen(calls, equip, view)
    ensures i < |calls| && calls[i].equip == equip && view(calls[i]) == Some(r)
  {
    i := |calls| - 1;
    if r in Seen(calls[..i], equip, view) { i := SeenFrom(calls[..i], equip, view, r); }
  }

  /** What is seen is in time order if the calls are. */
  lemma {:induction false} SeenInOrder<R>(calls: seq<L.Group>, equip: string, view: L.Group -> Option<R>, time: R -> int)
    requires Increasing(calls, equip) && forall g :: view(g).Some? ==> time(view(g).value) == g.ts
    ensures forall i, j :: 0 <= i < j < |Seen(calls, equip, view)| ==>
                             time(Seen(calls, equip, view)[i]) <= time(Seen(calls, equip, view)[j])
  {
    if calls != [] {
      var n := |calls| - 1;
      var before := Seen(calls[..n], equip, view);
      SeenInOrder(calls[..n], equip, view, time);
      if calls[n].equip == equip && view(calls[n]).Some? {
        forall i | 0 <= i < |before|
          ensures time(before[i]) <= calls[n].ts
        {
          assert before[i] in before;
          var k := SeenFrom(calls[..n], equip, view, before[i]);
          assert calls[..n][k] == calls[k];
        }
      }
    }
  }

  lemma CallsIncrease(taken: seq<EdgeBuffer.Sample>, equip: string)
    requires SamplePath.TimeOrdered(taken, equip)
    ensures Increasing(SamplePath.CallsFor(taken), equip)
  {
    hide SamplePath.ReadingVals;
  }

  /** A run of the delivery in which the Edge purges nothing and nothing returns after a purge of the MES, and equipment it
      keeps in order. */
  ghost predicate Delivers(c: D.Config, acts: seq<D.Action>, equip: string) {
    && DT.NoEdgePurge(acts) && DT.NothingReturns(c, acts) && equip in c.known
    && SamplePath.NeverUrgent(SamplePath.Taken(acts), equip) && SamplePath.TimeOrdered(SamplePath.Taken(acts), equip)
  }

  function RoutedCalls(c: D.Config, acts: seq<D.Action>): seq<L.Group> {
    SamplePath.Routed(D.Run(c, acts).hist.ingests)
  }

  function SampledCalls(acts: seq<D.Action>): seq<L.Group> {
    SamplePath.CallsFor(SamplePath.Taken(acts))
  }

  /** Whatever a handler looks at, it sees the samples in order so far, and all of them once the queue is empty. */
  lemma HandlersSeeTheSamples<R>(c: D.Config, acts: seq<D.Action>, equip: string, view: L.Group -> Option<R>, time: R -> int)
    requires Delivers(c, acts, equip) && forall g :: view(g).Some? ==> time(view(g).value) == g.ts
    ensures var seen := Seen(RoutedCalls(c, acts), equip, view);
            && seen <= Seen(SampledCalls(acts), equip, view)
            && (D.Run(c, acts).queue.rows == [] ==> seen == Seen(SampledCalls(acts), equip, view))
            && (forall i, j :: 0 <= i < j < |seen| ==> time(seen[i]) <= time(seen[j]))
  {
    hide D.Run, SamplePath.Taken, SamplePath.Routed, SamplePath.For, SamplePath.CallsFor, SamplePath.NeverUrgent,
         SamplePath.TimeOrdered, Increasing, Seen, DT.NothingReturns;
    var routed, calls := RoutedCalls(c, acts), SampledCalls(acts);
    var mine, all := SamplePath.For(routed, equip), SamplePath.For(calls, equip);
    Transparency.RoutedAsSampled(c, acts, equip);
    OnlyItsCalls(routed, equip, view);
    OnlyItsCalls(calls, equip, view);
    assert mine == all[..|mine|];
    SeenPrefix(all, |mine|, equip, view);
    CallsIncrease(SamplePath.Taken(acts), equip);
    SeenInOrder(calls, equip, view, time);
  }

  // ---------- what the run makes the MES do ----------

  /** What handling the calls one after the other comes to. */
  function Handled<O>(calls: seq<L.Group>, handle: L.Group -> seq<O>): seq<O> {
    if calls == [] then [] else Handled(calls[..|calls| - 1], handle) + handle(calls[|calls| - 1])
  }

  /** The calls the last action leads to. */
  function NewCalls(c: D.Config, acts: seq<D.Action>): seq<L.Group>
    requires acts != []
  {
    var before, after := D.Run(c, acts[..|acts| - 1]).hist.ingests, D.Run(c, acts).hist.ingests;
    if |after| > |before| then L.Routes(after[|after| - 1]) else []
  }

  /** What a run of the delivery makes a part of the MES do: it handles every call that is routed, and purges when the
      MES does, which deletes from all tables in one transaction. */
  function Driven<O>(c: D.Config, acts: seq<D.Action>, handle: L.Group -> seq<O>, purge: int -> O): seq<O> {
    if acts == [] then []
    else
      var a := acts[|acts| - 1];
      Driven(c, acts[..|acts| - 1], handle, purge)
      + Handled(NewCalls(c, acts), handle) + (if a.MesPurge? then [purge(a.cutoff)] else [])
  }

  lemma IngestsStep(c: D.Config, s: D.State, a: D.Action)
    ensures var before, after := s.hist.ingests, D.Step(c, s, a).hist.ingests;
            after == before || (|after| == |before| + 1 && after[..|before|] == before)
  {
    hide D.NextBatch, EdgeBuffer.Payload, L.Fresh, L.Ids, D.PendingIds, S.Filter, D.AllAccepted, EdgeBuffer.ResentCount,
         EdgeBuffer.Marked, EdgeBuffer.Purged, EdgeBuffer.Old;
  }

  lemma RoutedGrows(c: D.Config, acts: seq<D.Action>)
    requires acts != []
    ensures RoutedCalls(c, acts) == RoutedCalls(c, acts[..|acts| - 1]) + NewCalls(c, acts)
  {
    IngestsStep(c, D.Run(c, acts[..|acts| - 1]), acts[|acts| - 1]);
    hide D.Step, L.Routes;
  }

  lemma {:induction false} SeenAppend<R>(a: seq<L.Group>, b: seq<L.Group>, equip: string, view: L.Group -> Option<R>)
    ensures Seen(a + b, equip, view) == Seen(a, equip, view) + Seen(b, equip, view)
  {
    if b == [] {
      assert a + b == a;
    } else {
      var n := |b| - 1;
      assert (a + b)[..|a + b| - 1] == a + b[..n];
      SeenAppend(a, b[..n], equip, view);
    }
  }

  // ---------- alarms ----------

  /** What a rule looks at in a call: which of the places the equipment measures, the value, and the target if it has one. */
  datatype Look = Look(sub: string, value: real, target: Option<real>)

  /** A condition rule, and how it looks at calls. */
  datatype Condition = Condition(rule: Alarms.Rule, look: L.Group -> Option<Look>)

  /** The handlers for environment and sanitizer: one measured item of some equipment. */
  function ItemLook(equips: set<string>, item: string): L.Group -> Option<Look> {
    (g: L.Group) => if g.equip in equips && item in g.vals then Some(Look("", g.vals[item], None)) else None
  }

  /** The handler for salinity: the value for a tank, whose target is that of its current batch, which is the same for all
      batches of the tank (`TankBatches.TargetStays`). */
  function TankLook(equips: set<string>, targets: map<int, real>): L.Group -> Option<Look> {
    (g: L.Group) =>
      if g.equip in equips && "salinity" in g.vals && "tank_no" in g.vals && TankOf(g.vals["tank_no"]) in targets
      then Some(Look(TankSub(TankOf(g.vals["tank_no"])), g.vals["salinity"], Some(targets[TankOf(g.vals["tank_no"])])))
      else None
  }

  function TankOf(number: real): int {
    ValueCodec.Truncate(number)
  }

  function TankSub(tank: int): string {
    "T" + if tank < 0 then "-" + ValueCodec.Numeral(-tank) else ValueCodec.Numeral(tank)
  }

  function OwnCheck(k: Condition, g: L.Group): seq<Alarms.Op> {
    match k.look(g)
    case None => []
    case Some(l) => [Alarms.Check(k.rule, g.equip, l.sub, l.value, l.target, g.ts)]
  }

  /** The checks a call of `route` makes, in the order of the rules. */
  function ChecksOf(conditions: seq<Condition>, g: L.Group): seq<Alarms.Op> {
    if conditions == [] then []
    else ChecksOf(conditions[..|conditions| - 1], g) + OwnCheck(conditions[|conditions| - 1], g)
  }

  function Checking(conditions: seq<Condition>): L.Group -> seq<Alarms.Op> {
    (g: L.Group) => ChecksOf(conditions, g)
  }

  function PurgingAlarms(): int -> Alarms.Op {
    (cutoff: int) => Alarms.Purge(cutoff)
  }

  /** What the condition reads from a call about one place. */
  function ReadingOf(k: Condition, sub: string): L.Group -> Option<AlarmRuns.Reading> {
    (g: L.Group) =>
      match k.look(g)
      case None => None
      case Some(l) =>
        if l.sub == sub then Some(AlarmRuns.Reading(g.ts, Alarms.Deviates(k.rule, l.value, l.target), g.ts, g.ts)) else None
  }

  ghost predicate RuleIdsDistinct(conditions: seq<Condition>) {
    forall i, j :: 0 <= i < j < |conditions| ==> conditions[i].rule.id != conditions[j].rule.id
  }

  function KeyFor(k: Condition, equip: string, sub: string): Alarms.Key {
    Alarms.Key(k.rule.id, equip, sub)
  }

  lemma {:induction false} ReadingsAppend(ops: seq<Alarms.Op>, more: seq<Alarms.Op>, key: Alarms.Key)
    ensures AlarmRuns.ReadingsOf(ops + more, key) == AlarmRuns.ReadingsOf(ops, key) + AlarmRuns.ReadingsOf(more, key)
  {
    if more == [] {
      assert ops + more == ops;
    } else {
      var n := |more| - 1;
      assert (ops + more)[..|ops + more| - 1] == ops + more[..n];
      ReadingsAppend(ops, more[..n], key);
    }
  }

  /** The checks and purges among the operations of the alarm engine. */
  function FromTheRun(ops: seq<Alarms.Op>): seq<Alarms.Op> {
    S.Filter(ops, (op: Alarms.Op) => op.Check? || op.Purge?)
  }

  lemma {:induction false} ReadingsFromTheRun(ops: seq<Alarms.Op>, key: Alarms.Key)
    requires key.rule != "COMM"
    ensures AlarmRuns.ReadingsOf(FromTheRun(ops), key) == AlarmRuns.ReadingsOf(ops, key)
  {
    hide Alarms.Deviates;
    if ops != [] {
      var n := |ops| - 1;
      var before := FromTheRun(ops[..n]);
      ReadingsFromTheRun(ops[..n], key);
      assert (before + [ops[n]])[..|before|] == before;
    }
  }

  lemma OwnReading(k: Condition, g: L.Group, key: Alarms.Key)
    ensures AlarmRuns.ReadingsOf(OwnCheck(k, g), key) ==
            if key.rule == k.rule.id && g.equip == key.equip && ReadingOf(k, key.sub)(g).Some?
            then [ReadingOf(k, key.sub)(g).value] else []
  {
    hide Alarms.Deviates;
    match k.look(g)
    case None =>
    case Some(l) =>
      var op := Alarms.Check(k.rule, g.equip, l.sub, l.value, l.target, g.ts);
      assert [op][..0] == [];
  }

  function OwnReadings(k: Condition, g: L.Group, key: Alarms.Key): seq<AlarmRuns.Reading> {
    if g.equip == key.equip && ReadingOf(k, key.sub)(g).Some? then [ReadingOf(k, key.sub)(g).value] else []
  }

  /** What the checks of a call tell about a key: the checks of the conditions before the last, then its own. */
  lemma LastCheck(conditions: seq<Condition>, key: Alarms.Key, g: L.Group)
    requires conditions != []
    ensures var n := |conditions| - 1;
            AlarmRuns.ReadingsOf(ChecksOf(conditions, g), key) ==
            AlarmRuns.ReadingsOf(ChecksOf(conditions[..n], g), key)
            + if key.rule == conditions[n].rule.id then OwnReadings(conditions[n], g, key) else []
  {
    var n := |conditions| - 1;
    OwnReading(conditions[n], g, key);
    hide AlarmRuns.ReadingsOf, OwnCheck, ReadingOf;
    ReadingsAppend(ChecksOf(conditions[..n], g), OwnCheck(conditions[n], g), key);
  }

  /** Of the checks of one call, only the condition's own has its key. */
  lemma {:induction false} OneCheck(conditions: seq<Condition>, i: nat, key: Alarms.Key, g: L.Group)
    requires RuleIdsDistinct(conditions) && i < |conditions| && key.rule == conditions[i].rule.id
    ensures AlarmRuns.ReadingsOf(ChecksOf(conditions, g), key) == OwnReadings(conditions[i], g, key)
  {
    var n := |conditions| - 1;
    hide AlarmRuns.ReadingsOf, ChecksOf, OwnReadings;
    LastCheck(conditions, key, g);
    if i < n { OneCheck(conditions[..n], i, key, g); } else { NoCheck(conditions[..n], g, key); }
  }

  lemma {:induction false} NoCheck(conditions: seq<Condition>, g: L.Group, key: Alarms.Key)
    requires forall j :: 0 <= j < |conditions| ==> conditions[j].rule.id != key.rule
    ensures AlarmRuns.ReadingsOf(ChecksOf(conditions, g), key) == []
  {
    if conditions != [] {
      hide AlarmRuns.ReadingsOf, ChecksOf, OwnReadings;
      LastCheck(conditions, key, g);
      NoCheck(conditions[..|conditions| - 1], g, key);
    } else {
      NoChecks(g, key);
    }
  }

  lemma NoChecks(g: L.Group, key: Alarms.Key)
    ensures AlarmRuns.ReadingsOf(ChecksOf([], g), key) == []
  {
  }

  lemma {:induction false} HandledReadings(conditions: seq<Condition>, i: nat, key: Alarms.Key, calls: seq<L.Group>)
    requires RuleIdsDistinct(conditions) && i < |conditions| && key.rule == conditions[i].rule.id
    ensures AlarmRuns.ReadingsOf(Handled(calls, Checking(conditions)), key) ==
            Seen(calls, key.equip, ReadingOf(conditions[i], key.sub))
  {
    if calls != [] {
      var n := |calls| - 1;
      HandledReadings(conditions, i, key, calls[..n]);
      hide AlarmRuns.ReadingsOf, ChecksOf, ReadingOf;
      ReadingsAppend(Handled(calls[..n], Checking(conditions)), ChecksOf(conditions, calls[n]), key);
      OneCheck(conditions, i, key, calls[n]);
    }
  }

  lemma NoReadings(key: Alarms.Key, cutoff: int)
    ensures AlarmRuns.ReadingsOf([], key) == [] && AlarmRuns.ReadingsOf([Alarms.Purge(cutoff)], key) == []
  {
    assert [Alarms.Purge(cutoff)][..0] == [];
  }

  lemma {:induction false} DrivenReadings(c: D.Config, acts: seq<D.Action>, conditions: seq<Condition>, i: nat, key: Alarms.Key)
    requires RuleIdsDistinct(conditions) && i < |conditions| && key.rule == conditions[i].rule.id
    ensures AlarmRuns.ReadingsOf(Driven(c, acts, Checking(conditions), PurgingAlarms()), key) ==
            Seen(RoutedCalls(c, acts), key.equip, ReadingOf(conditions[i], key.sub))
  {
    hide AlarmRuns.ReadingsOf, ReadingOf, NewCalls, Checking, Handled, D.Step, RuleIdsDistinct;
    NoReadings(key, 0);
    if acts != [] {
      var n := |acts| - 1;
      DrivenReadings(c, acts[..n], conditions, i, key);
      RoutedGrows(c, acts);
      hide RoutedCalls;
      var before, made := Driven(c, acts[..n], Checking(conditions), PurgingAlarms()), Handled(NewCalls(c, acts), Checking(conditions));
      var purge := if acts[n].MesPurge? then [Alarms.Purge(acts[n].cutoff)] else [];
      if acts[n].MesPurge? { NoReadings(key, acts[n].cutoff); }
      ReadingsAppend(before, made, key);
      ReadingsAppend(before + made, purge, key);
      HandledReadings(conditions, i, key, NewCalls(c, acts));
      SeenAppend(RoutedCalls(c, acts[..n]), NewCalls(c, acts), key.equip, ReadingOf(conditions[i], key.sub));
    }
  }

  lemma {:induction false} HasItsHold(some: seq<Condition>, conditions: seq<Condition>, i: nat, key: Alarms.Key, g: L.Group)
    requires RuleIdsDistinct(conditions) && i < |conditions| && some <= conditions && key.rule == conditions[i].rule.id
    ensures forall op :: op in ChecksOf(some, g) ==> op.Check? && AlarmRuns.OnlyChecked(op, key, conditions[i].rule.hold)
  {
    if some != [] {
      var n := |some| - 1;
      HasItsHold(some[..n], conditions, i, key, g);
      assert some[n] == conditions[n];
    }
  }

  lemma {:induction false} HandledHold(conditions: seq<Condition>, i: nat, key: Alarms.Key, calls: seq<L.Group>)
    requires RuleIdsDistinct(conditions) && i < |conditions| && key.rule == conditions[i].rule.id
    ensures forall op :: op in Handled(calls, Checking(conditions)) ==>
                           op.Check? && AlarmRuns.OnlyChecked(op, key, conditions[i].rule.hold)
  {
    if calls != [] {
      HandledHold(conditions, i, key, calls[..|calls| - 1]);
      HasItsHold(conditions, conditions, i, key, calls[|calls| - 1]);
      hide AlarmRuns.OnlyChecked, ChecksOf;
    }
  }

  /** The MES purged at this cutoff in the run. */
  predicate PurgedAt(acts: seq<D.Action>, cutoff: int) {
    D.MesPurge(cutoff) in acts
  }

  lemma {:induction false} DrivenHold(c: D.Config, acts: seq<D.Action>, conditions: seq<Condition>, i: nat, key: Alarms.Key)
    requires RuleIdsDistinct(conditions) && i < |conditions| && key.rule == conditions[i].rule.id
    ensures forall op :: op in Driven(c, acts, Checking(conditions), PurgingAlarms()) ==>
                           && (op.Check? || (op.Purge? && PurgedAt(acts, op.cutoff)))
                           && AlarmRuns.OnlyChecked(op, key, conditions[i].rule.hold)
  {
    hide Checking, NewCalls, Handled, RuleIdsDistinct;
    if acts != [] {
      DrivenHold(c, acts[..|acts| - 1], conditions, i, key);
      HandledHold(conditions, i, key, NewCalls(c, acts));
    }
  }

  /** What goes on in the alarm engine: the checks and purges are those the run of the delivery leads to, in their order;
      acknowledgements, communication alarms, restarts, and events of event rules come at any time. */
  ghost predicate Serves(ops: seq<Alarms.Op>, eventRules: set<string>, conditions: seq<Condition>, c: D.Config,
                         acts: seq<D.Action>)
  {
    && FromTheRun(ops) == Driven(c, acts, Checking(conditions), PurgingAlarms())
    && (forall op :: op in ops && op.Event? ==> op.rule.id in eventRules)
  }

  lemma ServedOnlyChecks(ops: seq<Alarms.Op>, eventRules: set<string>, conditions: seq<Condition>, c: D.Config,
                         acts: seq<D.Action>, i: nat, key: Alarms.Key)
    requires Serves(ops, eventRules, conditions, c, acts) && RuleIdsDistinct(conditions) && i < |conditions|
    requires key.rule == conditions[i].rule.id && key.rule !in eventRules && key.rule != "COMM"
    ensures forall op :: op in ops ==> AlarmRuns.OnlyChecked(op, key, conditions[i].rule.hold)
    ensures forall op :: op in ops && op.Purge? ==> PurgedAt(acts, op.cutoff)
  {
    DrivenHold(c, acts, conditions, i, key);
    hide Driven, PurgedAt;
    forall op | op in ops
      ensures AlarmRuns.OnlyChecked(op, key, conditions[i].rule.hold) && (op.Purge? ==> PurgedAt(acts, op.cutoff))
    {
      assert op.Check? || op.Purge? ==> op in FromTheRun(ops);
    }
  }

  /** A checked value has one time only. */
  lemma {:induction false} CheckedAtOnce(calls: seq<L.Group>, equip: string, k: Condition, sub: string)
    ensures forall r :: r in Seen(calls, equip, ReadingOf(k, sub)) ==> r.now == r.ts
  {
    hide Alarms.Deviates;
    if calls != [] { CheckedAtOnce(calls[..|calls| - 1], equip, k, sub); }
  }

  lemma ServedReadings(c: D.Config, acts: seq<D.Action>, ops: seq<Alarms.Op>, eventRules: set<string>, conditions: seq<Condition>,
                       i: nat, key: Alarms.Key)
    requires Delivers(c, acts, key.equip) && Serves(ops, eventRules, conditions, c, acts)
    requires RuleIdsDistinct(conditions) && i < |conditions| && key.rule == conditions[i].rule.id && key.rule != "COMM"
    ensures var readings, view := AlarmRuns.ReadingsOf(ops, key), ReadingOf(conditions[i], key.sub);
            && AlarmRuns.Ordered(readings) && readings <= Seen(SampledCalls(acts), key.equip, view)
            && (D.Run(c, acts).queue.rows == [] ==> readings == Seen(SampledCalls(acts), key.equip, view))
  {
    hide D.Run, Driven, FromTheRun, Seen, AlarmRuns.ReadingsOf, RoutedCalls, SampledCalls, Delivers, Alarms.Deviates;
    ReadingsFromTheRun(ops, key);
    DrivenReadings(c, acts, conditions, i, key);
    HandlersSeeTheSamples(c, acts, key.equip, ReadingOf(conditions[i], key.sub), (r: AlarmRuns.Reading) => r.ts);
    CheckedAtOnce(RoutedCalls(c, acts), key.equip, conditions[i], key.sub);
  }

  /** The first k alarms ended before the cutoff of a purge of the MES. */
  ghost predicate EndedBeforePurge(spans: seq<AlarmRuns.Span>, k: nat, acts: seq<D.Action>) {
    k <= |spans| && forall i :: 0 <= i < k ==> spans[i].end.Some? && EndedBy(acts, spans[i].end.value)
  }

  ghost predicate EndedBy(acts: seq<D.Action>, end: int) {
    exists n :: 0 <= n < |acts| && acts[n].MesPurge? && end < acts[n].cutoff
  }

  lemma OutdatedByRun(spans: seq<AlarmRuns.Span>, k: nat, ops: seq<Alarms.Op>, acts: seq<D.Action>)
    requires AlarmHistory.Outdated(spans, k, ops) && forall op :: op in ops && op.Purge? ==> PurgedAt(acts, op.cutoff)
    ensures EndedBeforePurge(spans, k, acts)
  {
    forall i | 0 <= i < k
      ensures spans[i].end.Some? && EndedBy(acts, spans[i].end.value)
    {
      var j :| 0 <= j < |ops| && ops[j].Purge? && ops[j].cutoff >= spans[i].end.value + 1;
      assert ops[j] in ops;
      var n :| 0 <= n < |acts| && acts[n] == D.MesPurge(ops[j].cutoff);
      assert acts[n].MesPurge? && spans[i].end.value < acts[n].cutoff;
    }
  }

  lemma NoPurges(ops: seq<Alarms.Op>, acts: seq<D.Action>)
    requires DT.NoMesPurge(acts) && forall op :: op in ops && op.Purge? ==> PurgedAt(acts, op.cutoff)
    ensures forall op :: op in ops ==> !op.Purge?
  {
  }

  /** In every run of the delivery, purges of the MES included as long as nothing returns after one, with
      acknowledgements, events, communication alarms and restarts at the MES in between: the alarms of
      a condition on never-urgent, known equipment whose samples are taken in time order, targets and
      tanks included, follow from its samples and the moments of the restarts alone.  Without a restart
      or a purge they are one for each maximal run of deviating samples that lasts at least the hold
      time, from its first sample to the first conforming one; purges take those that ended before
      their cutoff, from the front.  While messages wait in the queue this holds of the samples routed so
      far, and of all of them once it is empty.  Lost answers, late and repeated requests, restarts of the
      Edge and batching change nothing. */
  lemma AlarmsFollowTheSamples(c: D.Config, acts: seq<D.Action>, ops: seq<Alarms.Op>, eventRules: set<string>,
                               conditions: seq<Condition>, i: nat, equip: string, sub: string)
    returns (k: nat)
    requires Delivers(c, acts, equip) && Serves(ops, eventRules, conditions, c, acts)
    requires RuleIdsDistinct(conditions) && i < |conditions|
    requires conditions[i].rule.id !in eventRules && conditions[i].rule.id != "COMM"
    ensures var key, hold := KeyFor(conditions[i], equip, sub), conditions[i].rule.hold;
            var spells, samples := AlarmHistory.Spells(ops, key), Seen(SampledCalls(acts), equip, ReadingOf(conditions[i], sub));
            var all, rows := AlarmHistory.Across(spells, hold), AlarmRuns.SpansOf(Alarms.Run(eventRules, ops).table, key);
            && AlarmHistory.Flat(spells) <= samples && (D.Run(c, acts).queue.rows == [] ==> AlarmHistory.Flat(spells) == samples)
            && k <= |all| && rows == all[k..] && EndedBeforePurge(all, k, acts) && (DT.NoMesPurge(acts) ==> k == 0)
            && (DT.NoMesPurge(acts) && (forall op :: op in ops ==> !op.Restart?) ==>
                  rows == AlarmRuns.Expected(AlarmHistory.Flat(spells), hold))
  {
    hide D.Run, Seen, SampledCalls, RoutedCalls, AlarmRuns.SpansOf, Alarms.Run, AlarmRuns.Expected, Delivers, Serves,
         AlarmRuns.ReadingsOf, AlarmRuns.OnlyChecked, AlarmRuns.Ordered, AlarmHistory.Spells, AlarmHistory.Across,
         AlarmHistory.Outdated, AlarmHistory.Flat, ReadingOf, RuleIdsDistinct, DT.NoMesPurge, PurgedAt, EndedBeforePurge;
    var key, hold := KeyFor(conditions[i], equip, sub), conditions[i].rule.hold;
    ServedOnlyChecks(ops, eventRules, conditions, c, acts, i, key);
    ServedReadings(c, acts, ops, eventRules, conditions, i, key);
    k := AlarmHistory.AlarmsAcrossRestarts(eventRules, ops, key, hold);
    OutdatedByRun(AlarmHistory.Across(AlarmHistory.Spells(ops, key), hold), k, ops, acts);
    if DT.NoMesPurge(acts) {
      NoPurges(ops, acts);
      if forall op :: op in ops ==> !op.Restart? { AlarmHistory.AlarmsAreTheRuns(eventRules, ops, key, hold); }
    }
  }

  // ---------- run intervals ----------

  /** The state a call reports in the given item, if it has it. */
  function StateIn(item: string): L.Group -> Option<RunLog.Reading> {
    (g: L.Group) => if item in g.vals then Some(RunLog.Reading(g.ts, g.vals[item] >= 0.5)) else None
  }

  /** The handlers that keep the run log: which item of an equipment tells its state. */
  function Logging(items: map<string, string>): L.Group -> seq<RunLog.Op> {
    (g: L.Group) =>
      if g.equip in items && items[g.equip] in g.vals then [RunLog.Observe(g.equip, g.vals[items[g.equip]] >= 0.5, g.ts)] else []
  }

  function PurgingRuns(): int -> RunLog.Op {
    (cutoff: int) => RunLog.Purge(cutoff)
  }

  /** The observations and purges among the operations of the run log. */
  function Lasting(ops: seq<RunLog.Op>): seq<RunLog.Op> {
    S.Filter(ops, (op: RunLog.Op) => !op.Restart?)
  }

  lemma {:induction false} StatesAppend(ops: seq<RunLog.Op>, more: seq<RunLog.Op>, equip: string)
    ensures RunLog.ReadingsOf(ops + more, equip) == RunLog.ReadingsOf(ops, equip) + RunLog.ReadingsOf(more, equip)
  {
    if more == [] {
      assert ops + more == ops;
    } else {
      var n := |more| - 1;
      assert (ops + more)[..|ops + more| - 1] == ops + more[..n];
      StatesAppend(ops, more[..n], equip);
    }
  }

  lemma {:induction false} StatesLasting(ops: seq<RunLog.Op>, equip: string)
    ensures RunLog.ReadingsOf(Lasting(ops), equip) == RunLog.ReadingsOf(ops, equip)
  {
    if ops != [] {
      var n := |ops| - 1;
      var before := Lasting(ops[..n]);
      StatesLasting(ops[..n], equip);
      assert (before + [ops[n]])[..|before|] == before;
    }
  }

  lemma {:induction false} HandledStates(items: map<string, string>, equip: string, calls: seq<L.Group>)
    requires equip in items
    ensures RunLog.ReadingsOf(Handled(calls, Logging(items)), equip) == Seen(calls, equip, StateIn(items[equip]))
  {
    if calls != [] {
      var n := |calls| - 1;
      var g := calls[n];
      HandledStates(items, equip, calls[..n]);
      StatesAppend(Handled(calls[..n], Logging(items)), Logging(items)(g), equip);
      OneState(items, equip, g);
      hide RunLog.ReadingsOf;
    }
  }

  lemma OneState(items: map<string, string>, equip: string, g: L.Group)
    requires equip in items
    ensures var view := StateIn(items[equip]);
            RunLog.ReadingsOf(Logging(items)(g), equip) == if g.equip == equip && view(g).Some? then [view(g).value] else []
  {
    var own := Logging(items)(g);
    assert own != [] ==> own[..0] == [];
  }

  lemma NoStates(equip: string, cutoff: int)
    ensures RunLog.ReadingsOf([], equip) == [] && RunLog.ReadingsOf([RunLog.Purge(cutoff)], equip) == []
  {
    assert [RunLog.Purge(cutoff)][..0] == [];
  }

  lemma {:induction false} DrivenStates(c: D.Config, acts: seq<D.Action>, items: map<string, string>, equip: string)
    requires equip in items
    ensures RunLog.ReadingsOf(Driven(c, acts, Logging(items), PurgingRuns()), equip) ==
            Seen(RoutedCalls(c, acts), equip, StateIn(items[equip]))
  {
    hide RunLog.ReadingsOf, StateIn, NewCalls, Logging, Handled, D.Step;
    NoStates(equip, 0);
    if acts != [] {
      var n := |acts| - 1;
      DrivenStates(c, acts[..n], items, equip);
      RoutedGrows(c, acts);
      hide RoutedCalls;
      var before, made := Driven(c, acts[..n], Logging(items), PurgingRuns()), Handled(NewCalls(c, acts), Logging(items));
      var purge := if acts[n].MesPurge? then [RunLog.Purge(acts[n].cutoff)] else [];
      if acts[n].MesPurge? { NoStates(equip, acts[n].cutoff); }
      StatesAppend(before, made, equip);
      StatesAppend(before + made, purge, equip);
      HandledStates(items, equip, NewCalls(c, acts));
      SeenAppend(RoutedCalls(c, acts[..n]), NewCalls(c, acts), equip, StateIn(items[equip]));
    }
  }

  /** Likewise the run log, whose observations and purges are those the run of the delivery leads to, with restarts of the
      MES at any time: its rows for the equipment are the intervals between the state changes of the
      samples routed so far, from some interval on, and of all samples once the queue is empty. */
  lemma RunLogFollowsTheSamples(c: D.Config, acts: seq<D.Action>, ops: seq<RunLog.Op>, items: map<string, string>, equip: string)
    returns (k: nat)
    requires Delivers(c, acts, equip) && equip in items && Lasting(ops) == Driven(c, acts, Logging(items), PurgingRuns())
    ensures var states, samples := RunLog.ReadingsOf(ops, equip), Seen(SampledCalls(acts), equip, StateIn(items[equip]));
            && states <= samples && (D.Run(c, acts).queue.rows == [] ==> states == samples)
            && RunLog.Shows(RunLog.Run(ops), equip, states, k)
            && (DT.NoMesPurge(acts) ==> k == 0)
  {
    hide D.Run, Seen, SampledCalls, RoutedCalls, Delivers, RunLog.ReadingsOf, RunLog.Shows, RunLog.Run, Lasting, Driven,
         DT.NoMesPurge;
    StatesLasting(ops, equip);
    DrivenStates(c, acts, items, equip);
    HandlersSeeTheSamples(c, acts, equip, StateIn(items[equip]), (r: RunLog.Reading) => r.ts);
    k := RunLog.RunLogIsTheIntervals(ops, equip);
    if DT.NoMesPurge(acts) { UnpurgedLog(c, acts, ops, items); }
  }

  lemma UnpurgedLog(c: D.Config, acts: seq<D.Action>, ops: seq<RunLog.Op>, items: map<string, string>)
    requires DT.NoMesPurge(acts) && Lasting(ops) == Driven(c, acts, Logging(items), PurgingRuns())
    ensures forall op :: op in ops ==> !op.Purge?
  {
    DrivenObserves(c, acts, items);
    hide Driven;
    forall op | op in ops
      ensures !op.Purge?
    {
      assert !op.Restart? ==> op in Lasting(ops);
    }
  }

  lemma {:induction false} DrivenObserves(c: D.Config, acts: seq<D.Action>, items: map<string, string>)
    requires DT.NoMesPurge(acts)
    ensures forall op :: op in Driven(c, acts, Logging(items), PurgingRuns()) ==> !op.Purge?
  {
    hide NewCalls;
    if acts != [] {
      assert acts[|acts| - 1] in acts && forall a :: a in acts[..|acts| - 1] ==> a in acts;
      DrivenObserves(c, acts[..|acts| - 1], items);
      HandledObserves(items, NewCalls(c, acts));
      hide Logging, Handled;
    }
  }

  lemma {:induction false} HandledObserves(items: map<string, string>, calls: seq<L.Group>)
    ensures forall op :: op in Handled(calls, Logging(items)) ==> !op.Purge?
  {
    if calls != [] { HandledObserves(items, calls[..|calls| - 1]); }
  }
}
