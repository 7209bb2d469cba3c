// How samples relate to the messages born from them and to the calls of `route` the MES makes.

module SamplePath {
  import opened Outcomes
  import opened Sequences
  import opened EdgeBuffer
  import opened MesLedger
  import opened Delivery
  import opened DeliveryInvariant
  import opened DeliverySteps
  import opened DeliveryIngest
  import opened DeliveryQueue
  import opened DeliverySample
  import opened DeliveryTheorems

  // ---------- what goes in ----------

  /** The samples that carried any value, in order. */
  function Taken(acts: seq<Action>): seq<Sample> {
    if acts == [] then []
    else
      var a := acts[|acts| - 1];
      Taken(acts[..|acts| - 1]) + (if a.Sampled? && a.sample.readings != [] then [a.sample] else [])
  }

  function ReadingVals(readings: seq<Reading>): map<string, real> {
    if readings == [] then map[]
    else ReadingVals(readings[..|readings| - 1])[readings[|readings| - 1].key := readings[|readings| - 1].value]
  }

  /** The call of `route` a sample should lead to. */
  function CallFor(s: Sample): Group {
    Group(s.equip, s.ts, ReadingVals(s.readings))
  }

  function CallsFor(taken: seq<Sample>): (calls: seq<Group>)
    ensures |calls| == |taken| && forall k :: 0 <= k < |taken| ==> calls[k] == CallFor(taken[k])
  {
    seq(|taken|, k requires 0 <= k < |taken| => CallFor(taken[k]))
  }

  function For(calls: seq<Group>, equip: string): seq<Group> {
    Filter(calls, (g: Group) => g.equip == equip)
  }

  // ---------- what comes out ----------

  /** All calls of `route`, ingest by ingest. */
  function Routed(ingests: seq<seq<Item>>): seq<Group> {
    if ingests == [] then [] else Routed(ingests[..|ingests| - 1]) + Routes(ingests[|ingests| - 1])
  }

  // ---------- births and samples ----------

  predicate NeverUrgent(taken: seq<Sample>, equip: string) {
    forall k :: 0 <= k < |taken| && taken[k].equip == equip ==> Lookup(taken[k].readings, "ng_cnt") == None
  }

  ghost predicate TimeOrdered(taken: seq<Sample>, equip: string) {
    forall j, k :: 0 <= j < k < |taken| && taken[j].equip == equip && taken[k].equip == equip ==> taken[j].ts < taken[k].ts
  }

  /** The values born into a row, later ones winning. */
  function RowVals(born: seq<Birth>, row: nat): map<string, real> {
    if born == [] then map[]
    else
      var b := born[|born| - 1];
      var vals := RowVals(born[..|born| - 1], row);
      if b.row == row then vals[b.item.key := b.item.value] else vals
  }

  ghost predicate BirthFrom(b: Birth, taken: seq<Sample>) {
    && 1 <= b.row <= |taken| && b.item.equip == taken[b.row - 1].equip && b.item.ts == taken[b.row - 1].ts
    && (Lookup(taken[b.row - 1].readings, "ng_cnt") == None ==> b.priority == NORMAL)
  }

  ghost predicate RowHasBirth(born: seq<Birth>, row: nat) {
    exists k :: 0 <= k < |born| && born[k].row == row
  }

  ghost predicate BornFrom(born: seq<Birth>, taken: seq<Sample>) {
    && (forall k :: 0 <= k < |born| ==> BirthFrom(born[k], taken))
    && (forall r: nat :: 1 <= r <= |taken| ==> RowHasBirth(born, r) && RowVals(born, r) == ReadingVals(taken[r - 1].readings))
  }

  lemma {:induction false} NoBirthNoVals(born: seq<Birth>, row: nat)
    requires forall k :: 0 <= k < |born| ==> born[k].row != row
    ensures RowVals(born, row) == map[]
  {
    if born != [] {
      NoBirthNoVals(born[..|born| - 1], row);
    }
  }

  lemma {:induction false} OtherRowVals(born: seq<Birth>, more: seq<Birth>, row: nat)
    requires forall k :: 0 <= k < |more| ==> more[k].row != row
    ensures RowVals(born + more, row) == RowVals(born, row)
  {
    if more == [] {
      assert born + more == born;
    } else {
      var n := |more| - 1;
      assert (born + more)[..|born + more| - 1] == born + more[..n];
      OtherRowVals(born, more[..n], row);
    }
  }

  lemma {:induction false} NewRowVals(born: seq<Birth>, more: seq<Birth>, row: nat, readings: seq<Reading>)
    requires |more| == |readings| && forall k :: 0 <= k < |born| ==> born[k].row != row
    requires forall k :: 0 <= k < |more| ==>
                           more[k].row == row && more[k].item.key == readings[k].key && more[k].item.value == readings[k].value
    ensures RowVals(born + more, row) == ReadingVals(readings)
  {
    if more == [] {
      assert born + more == born;
      NoBirthNoVals(born, row);
    } else {
      var n := |more| - 1;
      assert (born + more)[..|born + more| - 1] == born + more[..n];
      NewRowVals(born, more[..n], row, readings[..n]);
    }
  }

  lemma BornFromGrows(born: seq<Birth>, births: seq<Birth>, taken: seq<Sample>, sample: Sample)
    requires BornFrom(born, taken) && births != [] && |births| == |sample.readings|
    requires forall k :: 0 <= k < |births| ==> BirthFrom(births[k], taken + [sample]) && births[k].row == |taken| + 1
    requires forall k :: 0 <= k < |births| ==>
                           births[k].item.key == sample.readings[k].key && births[k].item.value == sample.readings[k].value
    ensures BornFrom(born + births, taken + [sample])
  {
    var all, more := born + births, taken + [sample];
    hide RowVals, ReadingVals, Lookup;
    forall r: nat | 1 <= r <= |more|
      ensures RowHasBirth(all, r) && RowVals(all, r) == ReadingVals(more[r - 1].readings)
    {
      if r <= |taken| {
        assert RowHasBirth(born, r);
        var k :| 0 <= k < |born| && born[k].row == r;
        assert all[k].row == r;
        OtherRowVals(born, births, r);
      } else {
        assert all[|born|].row == r;
        NewRowVals(born, births, r, sample.readings);
      }
    }
    forall k | 0 <= k < |all|
      ensures BirthFrom(all[k], more)
    {
      if k < |born| { assert BirthFrom(born[k], taken); } else { assert BirthFrom(births[k - |born|], more); }
    }
  }

  lemma BornFromStep(c: Config, s: State, a: Action, taken: seq<Sample>)
    requires BornFrom(s.hist.born, taken) && s.queue.nextRow == |taken| + 1
    ensures var t := Step(c, s, a);
            var more := taken + (if a.Sampled? && a.sample.readings != [] then [a.sample] else []);
            BornFrom(t.hist.born, more) && t.queue.nextRow == |more| + 1
  {
    hide NextBatch, Payload, Fresh, Ids, PendingIds, BornFrom, ReadingVals, Filter, AllAccepted, ResentCount;
    if a.Sampled? && a.sample.readings != [] {
      var items := Numbered(ToRawItems(a.sample), s.queue.seqNo + 1);
      var births := Births(items, s.queue.nextRow, Priority(s.mdNg, a.sample), s.hist.failures, s.link == Down);
      assert Step(c, s, a).hist.born == s.hist.born + births;
      BornFromGrows(s.hist.born, births, taken, a.sample);
    } else {
      assert taken + [] == taken;
    }
  }

  lemma {:induction false} RunBornFrom(c: Config, acts: seq<Action>)
    ensures BornFrom(Run(c, acts).hist.born, Taken(acts)) && Run(c, acts).queue.nextRow == |Taken(acts)| + 1
  {
    hide Step, BornFrom;
    if acts == [] {
      assert BornFrom([], []) by { NothingBorn(); }
    } else {
      RunBornFrom(c, acts[..|acts| - 1]);
      BornFromStep(c, Run(c, acts[..|acts| - 1]), acts[|acts| - 1], Taken(acts[..|acts| - 1]));
    }
  }

  lemma NothingBorn()
    ensures BornFrom([], [])
  {
  }

  // ---------- each ingest stores whole samples ----------

  ghost predicate IngestsWhole(born: seq<Birth>, ingests: seq<seq<Item>>) {
    forall p :: 0 <= p < |ingests| ==> Whole(born, Ids(ingests[p])) && Within(Ids(ingests[p]), |born|)
  }

  lemma WholeDifference(born: seq<Birth>, before: set<nat>, added: set<nat>)
    requires Whole(born, before) && Whole(born, before + added) && before !! added
    ensures Whole(born, added)
  {
    forall i: nat, j: nat | SameRow(born, i, j) && i in added
      ensures j in added
    {
      assert SameRow(born, j, i);
    }
  }

  lemma AddedIsWhole(c: Config, s: State, req: nat)
    requires Inv(c, s) && req < |s.net|
    ensures var added := Fresh(Ids(s.ledger), c.known, s.net[req]);
            Whole(s.hist.born, Ids(added)) && Within(Ids(added), |s.hist.born|)
  {
    var born, items, stored := s.hist.born, s.net[req], Ids(s.ledger);
    var added := Fresh(stored, c.known, items);
    RequestAt(born, s.net, Settled(c, s.hist), req);
    LedgerIsWhole(s.ledger, s.hist);
    hide Inv, Fresh, Genuine, Closed, Whole, DistinctIds, BornOk, Settled, Ids, LedgerOk;
    FreshFacts(stored, c.known, items);
    assert BornOk(born, s.queue) by { InvBorn(c, s); }
    AddedWhole(born, s.queue, c.known, stored, items, stored);
    WholeDifference(born, stored, Ids(added));
    forall i | i in Ids(added)
      ensures 1 <= i <= |born|
    {
      GenuineIds(born, items, i);
    }
  }

  lemma InvBorn(c: Config, s: State)
    requires Inv(c, s)
    ensures BornOk(s.hist.born, s.queue)
  {
  }

  lemma LedgerIsWhole(ledger: seq<Item>, h: History)
    requires LedgerOk(ledger, h)
    ensures Whole(h.born, Ids(ledger)) && h.log == Concat(h.ingests)
  {
  }

  lemma IngestsGrow(born: seq<Birth>, more: seq<Birth>, row: nat, ingests: seq<seq<Item>>)
    requires IngestsWhole(born, ingests) && Grows(born, more, row)
    ensures IngestsWhole(more, ingests)
  {
    hide Whole, Grows;
    forall p | 0 <= p < |ingests|
      ensures Whole(more, Ids(ingests[p]))
    {
      WholeGrows(born, more, row, Ids(ingests[p]));
    }
    assert |born| <= |more| by { GrowsLonger(born, more, row); }
  }

  lemma GrowsLonger(born: seq<Birth>, more: seq<Birth>, row: nat)
    requires Grows(born, more, row)
    ensures |born| <= |more|
  {
  }

  lemma IngestsWholeStep(c: Config, s: State, a: Action)
    requires Inv(c, s) && IngestsWhole(s.hist.born, s.hist.ingests)
    ensures IngestsWhole(Step(c, s, a).hist.born, Step(c, s, a).hist.ingests)
  {
    hide Inv, IngestsWhole, NextBatch, Payload, Fresh, Ids, PendingIds, Filter, AllAccepted, ResentCount, Enters, Grows;
    var t := Step(c, s, a);
    if a.Sampled? && a.sample.readings != [] {
      var r := NewRow(s, a.sample, a.now);
      InvBorn(c, s);
      SampleShape(c, s, a.sample, a.now);
      EntersGrows(s.hist.born, t.hist.born, s.queue, r, s.hist.failures, s.link == Down);
      IngestsGrow(s.hist.born, t.hist.born, r.id, s.hist.ingests);
    } else if a.Process? && a.req < |s.net| {
      AddedIsWhole(c, s, a.req);
      IngestsSnoc(s.hist.born, s.hist.ingests, Fresh(Ids(s.ledger), c.known, s.net[a.req]));
    }
  }

  lemma IngestsSnoc(born: seq<Birth>, ingests: seq<seq<Item>>, added: seq<Item>)
    requires IngestsWhole(born, ingests) && Whole(born, Ids(added)) && Within(Ids(added), |born|)
    ensures IngestsWhole(born, ingests + [added])
  {
  }

  lemma {:induction false} RunIngestsWhole(c: Config, acts: seq<Action>)
    ensures IngestsWhole(Run(c, acts).hist.born, Run(c, acts).hist.ingests)
  {
    hide Step, Inv;
    if acts != [] {
      RunKeeps(c, acts[..|acts| - 1]);
      RunIngestsWhole(c, acts[..|acts| - 1]);
      hide IngestsWhole;
      IngestsWholeStep(c, Run(c, acts[..|acts| - 1]), acts[|acts| - 1]);
    }
  }
}
