// From the registers of a device to the alarms at the MES: what the reader emits passes the filter, becomes the
// samples the Edge takes, and these are what the MES routes.

module SensorToRoute {
  import opened Outcomes
  import A = Acquisition
  import AlarmHistory
  import AlarmRuns
  import Alarms
  import D = Delivery
  import DT = DeliveryTheorems
  import E = EdgeBuffer
  import EndToEnd
  import L = MesLedger
  import Modbus
  import N = NoiseFilter
  import Polling
  import S = Sequences
  import SamplePath
  import Transparency

  // ---------- from an emission to a sample ----------

  /** The values of a sample by their keys. */
  function ByKey(pairs: seq<(string, real)>): map<string, real> {
    if pairs == [] then map[]
    else ByKey(pairs[..|pairs| - 1])[pairs[|pairs| - 1].0 := pairs[|pairs| - 1].1]
  }

  function Inputs(emitted: seq<A.Emission>): (inputs: seq<map<string, real>>)
    ensures |inputs| == |emitted| && forall i :: 0 <= i < |inputs| ==> inputs[i] == ByKey(emitted[i].values)
  {
    seq(|emitted|, i requires 0 <= i < |emitted| => ByKey(emitted[i].values))
  }

  /** What the filter leaves of each emission, with the time it was emitted at. */
  function Passed(equip: string, gauges: seq<N.Gauge>, emitted: seq<A.Emission>, times: seq<int>): (samples: seq<E.Sample>)
    requires |times| == |emitted|
    ensures |samples| == |emitted|
    ensures forall i :: 0 <= i < |samples| ==>
                          samples[i] == E.Sample(equip, times[i], N.FilterAll(equip, gauges, Inputs(emitted)[..i + 1]).keep)
  {
    seq(|emitted|, i requires 0 <= i < |emitted| =>
      E.Sample(equip, times[i], N.FilterAll(equip, gauges, Inputs(emitted)[..i + 1]).keep))
  }

  /** The samples with any value left, which are those the Edge takes, and where they stand. */
  function Positions(samples: seq<E.Sample>): (at: seq<nat>)
    ensures forall j :: 0 <= j < |at| ==> at[j] < |samples| && samples[at[j]].readings != []
    ensures forall i, j :: 0 <= i < j < |at| ==> at[i] < at[j]
    ensures forall i :: 0 <= i < |samples| && samples[i].readings != [] ==> i in at
  {
    if samples == [] then []
    else
      var n := |samples| - 1;
      var before := Positions(samples[..n]);
      if samples[n].readings != [] then before + [n] else before
  }

  function Carried(samples: seq<E.Sample>): (r: seq<E.Sample>)
    ensures |r| == |Positions(samples)| && forall j :: 0 <= j < |r| ==> r[j] == samples[Positions(samples)[j]]
  {
    seq(|Positions(samples)|, j requires 0 <= j < |Positions(samples)| => samples[Positions(samples)[j]])
  }

  function TakenOf(acts: seq<D.Action>, equip: string): seq<E.Sample> {
    S.Filter(SamplePath.Taken(acts), (s: E.Sample) => s.equip == equip)
  }

  /** The samples of the equipment in the run of the delivery are the emissions of its reader. */
  ghost predicate Feeds(acts: seq<D.Action>, equip: string, gauges: seq<N.Gauge>, emitted: seq<A.Emission>, times: seq<int>) {
    |times| == |emitted| && TakenOf(acts, equip) == Carried(Passed(equip, gauges, emitted, times))
  }

  lemma CallsForSnoc(taken: seq<E.Sample>, s: E.Sample)
    ensures SamplePath.CallsFor(taken + [s]) == SamplePath.CallsFor(taken) + [SamplePath.CallFor(s)]
  {
    hide SamplePath.CallFor;
  }

  lemma {:induction false} CallsForFilter(taken: seq<E.Sample>, equip: string)
    ensures SamplePath.For(SamplePath.CallsFor(taken), equip) ==
            SamplePath.CallsFor(S.Filter(taken, (s: E.Sample) => s.equip == equip))
  {
    hide SamplePath.ReadingVals;
    if taken == [] {
      assert SamplePath.CallsFor([]) == [];
    } else {
      var n := |taken| - 1;
      var kept := S.Filter(taken[..n], (s: E.Sample) => s.equip == equip);
      CallsForFilter(taken[..n], equip);
      CallsForSnoc(taken[..n], taken[n]);
      CallsForSnoc(kept, taken[n]);
      assert taken == taken[..n] + [taken[n]];
      hide SamplePath.CallsFor;
      var calls := SamplePath.CallsFor(taken[..n]);
      assert (calls + [SamplePath.CallFor(taken[n])])[..|calls|] == calls;
    }
  }

  /** What the samples of the equipment lead to follows from the emissions. */
  lemma SampledAreEmitted(acts: seq<D.Action>, equip: string, gauges: seq<N.Gauge>, emitted: seq<A.Emission>, times: seq<int>)
    requires Feeds(acts, equip, gauges, emitted, times)
    ensures SamplePath.For(EndToEnd.SampledCalls(acts), equip) ==
            SamplePath.CallsFor(Carried(Passed(equip, gauges, emitted, times)))
  {
    CallsForFilter(SamplePath.Taken(acts), equip);
    hide SamplePath.CallsFor, SamplePath.For, Carried, Passed;
  }

  // ---------- the values of a call ----------

  lemma {:induction false} KeptFromInput(traces: N.Traces, equip: string, gauges: seq<N.Gauge>, values: map<string, real>)
    ensures forall r :: r in N.Filtered(traces, equip, gauges, values).keep ==> r.key in values && r.value == values[r.key]
  {
    hide N.Judged;
    if gauges != [] { KeptFromInput(traces, equip, gauges[..|gauges| - 1], values); }
  }

  lemma {:induction false} ValsFromReadings(readings: seq<E.Reading>, values: map<string, real>)
    requires forall r :: r in readings ==> r.key in values && r.value == values[r.key]
    ensures var vals := SamplePath.ReadingVals(readings); forall k :: k in vals ==> k in values && vals[k] == values[k]
  {
    if readings != [] {
      var n := |readings| - 1;
      assert readings[n] in readings && forall r :: r in readings[..n] ==> r in readings;
      ValsFromReadings(readings[..n], values);
    }
  }

  /** The call carries values of this poll and no others. */
  ghost predicate Shows(g: L.Group, items: seq<Polling.Item>, words: seq<Modbus.Word>) {
    && |words| == Polling.ValueWords(items)
    && var values := ByKey(A.Decoded(items, words)); forall k :: k in g.vals ==> k in values && g.vals[k] == values[k]
  }

  lemma PassedShows(equip: string, gauges: seq<N.Gauge>, d: A.Device, polls: seq<seq<Modbus.Word>>, emitted: seq<A.Emission>,
                    times: seq<int>, i: nat)
    requires |times| == |emitted| && i < |emitted| && A.Genuine(d, polls, emitted[i])
    ensures Shows(SamplePath.CallFor(Passed(equip, gauges, emitted, times)[i]), d.items, polls[emitted[i].poll - 1])
  {
    var sample, inputs := Passed(equip, gauges, emitted, times)[i], Inputs(emitted)[..i + 1];
    hide A.Decoded, SamplePath.ReadingVals, ByKey, N.Filtered;
    assert inputs[i] == ByKey(emitted[i].values);
    KeptFromInput(N.FilterAll(equip, gauges, inputs[..i]).traces, equip, gauges, inputs[i]);
    ValsFromReadings(sample.readings, ByKey(emitted[i].values));
  }

  /** No limits on any item, and a gauge for each. */
  ghost predicate Unlimited(gauges: seq<N.Gauge>, items: seq<Polling.Item>) {
    && |gauges| == |items|
    && forall i :: 0 <= i < |gauges| ==> gauges[i] == N.Gauge(items[i].key, None, None)
  }

  lemma {:induction false} AllKept(traces: N.Traces, equip: string, gauges: seq<N.Gauge>, values: map<string, real>)
    requires forall i :: 0 <= i < |gauges| ==> gauges[i].range.None? && gauges[i].maxStep.None?
    ensures forall i :: 0 <= i < |gauges| && gauges[i].key in values ==>
                          E.Reading(gauges[i].key, values[gauges[i].key]) in N.Filtered(traces, equip, gauges, values).keep
  {
    if gauges != [] {
      var n := |gauges| - 1;
      AllKept(traces, equip, gauges[..n], values);
      assert forall i :: 0 <= i < n ==> gauges[..n][i] == gauges[i];
    }
  }

  lemma {:induction false} KeysAreTheItems(items: seq<Polling.Item>, words: seq<Modbus.Word>)
    requires |words| == Polling.ValueWords(items)
    ensures forall i :: 0 <= i < |items| ==> items[i].key in ByKey(A.Decoded(items, words))
    ensures forall k :: k in ByKey(A.Decoded(items, words)) ==> exists i :: 0 <= i < |items| && items[i].key == k
  {
    if items != [] {
      var n := |items| - 1;
      var m := Polling.ValueWords(items[..n]);
      KeysAreTheItems(items[..n], words[..m]);
      var before, all := A.Decoded(items[..n], words[..m]), A.Decoded(items, words);
      assert all[..|all| - 1] == before;
      forall k | k in ByKey(all)
        ensures exists i :: 0 <= i < |items| && items[i].key == k
      {
        if k in ByKey(before) {
          var i :| 0 <= i < n && items[..n][i].key == k;
          assert items[i].key == k;
        }
      }
      forall i | 0 <= i < |items|
        ensures items[i].key in ByKey(all)
      {
        if i < n { assert items[..n][i] == items[i]; }
      }
    }
  }

  lemma {:induction false} ValsHave(readings: seq<E.Reading>, r: E.Reading)
    requires r in readings
    ensures r.key in SamplePath.ReadingVals(readings)
  {
    var n := |readings| - 1;
    if r != readings[n] { ValsHave(readings[..n], r); }
  }

  /** Without limits a call carries all values of its poll. */
  lemma PassedShowsAll(equip: string, gauges: seq<N.Gauge>, d: A.Device, polls: seq<seq<Modbus.Word>>, emitted: seq<A.Emission>,
                       times: seq<int>, i: nat)
    requires |times| == |emitted| && i < |emitted| && A.Genuine(d, polls, emitted[i]) && Unlimited(gauges, d.items)
    ensures var sample := Passed(equip, gauges, emitted, times)[i];
            && SamplePath.CallFor(sample).vals == ByKey(A.Decoded(d.items, polls[emitted[i].poll - 1]))
            && (d.items != [] ==> sample.readings != [])
  {
    var sample, inputs := Passed(equip, gauges, emitted, times)[i], Inputs(emitted)[..i + 1];
    var values := ByKey(emitted[i].values);
    PassedShows(equip, gauges, d, polls, emitted, times, i);
    KeysAreTheItems(d.items, polls[emitted[i].poll - 1]);
    AllKept(N.FilterAll(equip, gauges, inputs[..i]).traces, equip, gauges, inputs[i]);
    hide A.Decoded, SamplePath.ReadingVals, ByKey, N.Filtered;
    assert sample.readings == N.FilterAll(equip, gauges, inputs).keep;
    assert inputs[..|inputs| - 1] == inputs[..i];
    forall j | 0 <= j < |d.items|
      ensures d.items[j].key in SamplePath.ReadingVals(sample.readings)
    {
      assert gauges[j].key == d.items[j].key;
      ValsHave(sample.readings, E.Reading(d.items[j].key, values[d.items[j].key]));
    }
    assert SamplePath.ReadingVals([]) == map[] by { NoVals(); }
    if d.items != [] { assert d.items[0].key in SamplePath.ReadingVals(sample.readings); }
  }

  lemma NoVals()
    ensures SamplePath.ReadingVals([]) == map[]
  {
  }

  // ---------- from the polls to the calls ----------

  /** What the acquisition run has recorded of the device. */
  ghost predicate Tracks(ac: A.Config, polling: seq<A.Action>, equip: string, t: A.Track) {
    A.Valid(ac) && equip in ac.devices && equip in A.Run(ac, polling).tracks && t == A.Run(ac, polling).tracks[equip]
  }

  lemma TrackIsGenuine(ac: A.Config, polling: seq<A.Action>, equip: string, t: A.Track)
    requires Tracks(ac, polling, equip, t)
    ensures forall i :: 0 <= i < |t.emitted| ==> A.Genuine(ac.devices[equip], t.polls, t.emitted[i])
    ensures forall i, j :: 0 <= i < j < |t.emitted| ==> t.emitted[i].poll < t.emitted[j].poll
  {
    hide A.Valid, A.Run, A.Genuine;
    A.SamplesAreWholePolls(ac, polling, equip);
  }

  /** Each call shows one poll, later ones later polls. */
  ghost predicate ShowPolls(calls: seq<L.Group>, d: A.Device, polls: seq<seq<Modbus.Word>>, from: seq<nat>) {
    && |from| == |calls|
    && (forall j :: 0 <= j < |from| ==> 1 <= from[j] <= |polls| && Shows(calls[j], d.items, polls[from[j] - 1]))
    && (forall i, j :: 0 <= i < j < |from| ==> from[i] < from[j])
  }

  /** Every emission of which the filter has left anything is among them. */
  ghost predicate NoneMissing(samples: seq<E.Sample>, emitted: seq<A.Emission>, from: seq<nat>) {
    |samples| == |emitted| && forall i :: 0 <= i < |emitted| && samples[i].readings != [] ==> emitted[i].poll in from
  }

  function PollsOf(emitted: seq<A.Emission>, at: seq<nat>, n: nat): (from: seq<nat>)
    requires n <= |at| && forall j :: 0 <= j < |at| ==> at[j] < |emitted|
    ensures |from| == n && forall j :: 0 <= j < n ==> from[j] == emitted[at[j]].poll
  {
    seq(n, j requires 0 <= j < n => emitted[at[j]].poll)
  }

  lemma CarriedShow(d: A.Device, equip: string, gauges: seq<N.Gauge>, polls: seq<seq<Modbus.Word>>, emitted: seq<A.Emission>,
                    times: seq<int>, n: nat)
    requires |times| == |emitted| && (forall i :: 0 <= i < |emitted| ==> A.Genuine(d, polls, emitted[i]))
    requires forall i, j :: 0 <= i < j < |emitted| ==> emitted[i].poll < emitted[j].poll
    requires n <= |Carried(Passed(equip, gauges, emitted, times))|
    ensures var samples := Passed(equip, gauges, emitted, times);
            ShowPolls(SamplePath.CallsFor(Carried(samples))[..n], d, polls, PollsOf(emitted, Positions(samples), n))
  {
    hide A.Genuine, Shows, Positions, SamplePath.CallFor, Passed;
    var samples := Passed(equip, gauges, emitted, times);
    var at := Positions(samples);
    forall j | 0 <= j < n
      ensures 1 <= emitted[at[j]].poll <= |polls| && Shows(SamplePath.CallFor(samples[at[j]]), d.items, polls[emitted[at[j]].poll - 1])
    {
      GenuineRange(d, polls, emitted[at[j]]);
      PassedShows(equip, gauges, d, polls, emitted, times, at[j]);
    }
  }

  lemma CarriedMissNone(samples: seq<E.Sample>, emitted: seq<A.Emission>)
    requires |samples| == |emitted|
    ensures NoneMissing(samples, emitted, PollsOf(emitted, Positions(samples), |Positions(samples)|))
  {
    hide Positions;
    var at := Positions(samples);
    var from := PollsOf(emitted, at, |at|);
    forall i | 0 <= i < |emitted| && samples[i].readings != []
      ensures emitted[i].poll in from
    {
      var j :| 0 <= j < |at| && at[j] == i;
      assert from[j] == emitted[i].poll;
    }
  }

  /** From the registers to `route`, whatever the pace of the reader, the wrap of the counter, the line and the MES do
      in between: each call for a polled device carries values of exactly one successful poll, decoded
      from its own registers, and later calls those of later polls; once the queue is empty every emission of
      which the filter has left anything has led to a call. */
  lemma CallsAreThePolls(ac: A.Config, polling: seq<A.Action>, c: D.Config, acts: seq<D.Action>, equip: string,
                         t: A.Track, gauges: seq<N.Gauge>, times: seq<int>)
    returns (from: seq<nat>)
    requires Tracks(ac, polling, equip, t) && EndToEnd.Delivers(c, acts, equip) && Feeds(acts, equip, gauges, t.emitted, times)
    ensures ShowPolls(SamplePath.For(EndToEnd.RoutedCalls(c, acts), equip), ac.devices[equip], t.polls, from)
    ensures D.Run(c, acts).queue.rows == [] ==> NoneMissing(Passed(equip, gauges, t.emitted, times), t.emitted, from)
  {
    hide A.Valid, A.Run, D.Run, A.Genuine, EndToEnd.SampledCalls, EndToEnd.RoutedCalls, SamplePath.For, SamplePath.CallFor,
         EndToEnd.Delivers, Passed, Positions, ShowPolls, NoneMissing;
    var calls, samples := SamplePath.For(EndToEnd.RoutedCalls(c, acts), equip), Passed(equip, gauges, t.emitted, times);
    TrackIsGenuine(ac, polling, equip, t);
    DeliversInOrder(c, acts, equip);
    SampledAreEmitted(acts, equip, gauges, t.emitted, times);
    CarriedShow(ac.devices[equip], equip, gauges, t.polls, t.emitted, times, |calls|);
    CarriedMissNone(samples, t.emitted);
    from := PollsOf(t.emitted, Positions(samples), |calls|);
    assert calls == SamplePath.CallsFor(Carried(samples))[..|calls|];
  }

  lemma GenuineRange(d: A.Device, polls: seq<seq<Modbus.Word>>, e: A.Emission)
    requires A.Genuine(d, polls, e)
    ensures 1 <= e.poll <= |polls| && |polls[e.poll - 1]| == Polling.ValueWords(d.items)
  {
  }

  lemma DeliversInOrder(c: D.Config, acts: seq<D.Action>, equip: string)
    requires EndToEnd.Delivers(c, acts, equip)
    ensures var calls, all := SamplePath.For(EndToEnd.RoutedCalls(c, acts), equip), SamplePath.For(EndToEnd.SampledCalls(acts), equip);
            calls <= all && (D.Run(c, acts).queue.rows == [] ==> calls == all)
  {
    hide D.Run, SamplePath.For, SamplePath.NeverUrgent, SamplePath.TimeOrdered, DT.NothingReturns, SamplePath.Taken,
         SamplePath.Routed;
    Transparency.RoutedAsSampled(c, acts, equip);
  }

  /** The call carries all values of the poll the emission stems from. */
  ghost predicate IsWhole(g: L.Group, equip: string, time: int, items: seq<Polling.Item>, polls: seq<seq<Modbus.Word>>,
                          e: A.Emission)
  {
    && 1 <= e.poll <= |polls| && |polls[e.poll - 1]| == Polling.ValueWords(items)
    && g == L.Group(equip, time, ByKey(A.Decoded(items, polls[e.poll - 1])))
  }

  /** Without limits in the filter: as soon as the queue is empty, every emission is one call with all its values. */
  lemma UnlimitedCallsAreWhole(ac: A.Config, polling: seq<A.Action>, c: D.Config, acts: seq<D.Action>, equip: string,
                               t: A.Track, gauges: seq<N.Gauge>, times: seq<int>)
    requires Tracks(ac, polling, equip, t) && EndToEnd.Delivers(c, acts, equip) && Feeds(acts, equip, gauges, t.emitted, times)
    requires Unlimited(gauges, ac.devices[equip].items) && ac.devices[equip].items != [] && D.Run(c, acts).queue.rows == []
    ensures var calls := SamplePath.For(EndToEnd.RoutedCalls(c, acts), equip);
            && |calls| == |t.emitted| == |times|
            && forall i :: 0 <= i < |calls| ==> IsWhole(calls[i], equip, times[i], ac.devices[equip].items, t.polls, t.emitted[i])
  {
    hide A.Valid, A.Run, D.Run, Unlimited, EndToEnd.SampledCalls, EndToEnd.RoutedCalls, SamplePath.For, SamplePath.CallFor,
         EndToEnd.Delivers, Passed, IsWhole, A.Genuine, Positions, Carried;
    var d, samples := ac.devices[equip], Passed(equip, gauges, t.emitted, times);
    TrackIsGenuine(ac, polling, equip, t);
    forall i | 0 <= i < |t.emitted|
      ensures samples[i].readings != []
      ensures IsWhole(SamplePath.CallFor(samples[i]), equip, times[i], d.items, t.polls, t.emitted[i])
    {
      PassedIsWhole(equip, gauges, d, t.polls, t.emitted, times, i);
    }
    AllCarried(samples);
    DeliversInOrder(c, acts, equip);
    SampledAreEmitted(acts, equip, gauges, t.emitted, times);
  }

  lemma PassedIsWhole(equip: string, gauges: seq<N.Gauge>, d: A.Device, polls: seq<seq<Modbus.Word>>, emitted: seq<A.Emission>,
                      times: seq<int>, i: nat)
    requires |times| == |emitted| && i < |emitted| && A.Genuine(d, polls, emitted[i]) && Unlimited(gauges, d.items) && d.items != []
    ensures var sample := Passed(equip, gauges, emitted, times)[i];
            sample.readings != [] && IsWhole(SamplePath.CallFor(sample), equip, times[i], d.items, polls, emitted[i])
  {
    hide A.Genuine, Unlimited, Passed, A.Decoded, ByKey, SamplePath.ReadingVals;
    GenuineRange(d, polls, emitted[i]);
    PassedShowsAll(equip, gauges, d, polls, emitted, times, i);
  }

  lemma {:induction false} AllPositions(samples: seq<E.Sample>)
    requires forall i :: 0 <= i < |samples| ==> samples[i].readings != []
    ensures |Positions(samples)| == |samples| && forall i :: 0 <= i < |samples| ==> Positions(samples)[i] == i
  {
    if samples != [] {
      var n := |samples| - 1;
      assert forall i :: 0 <= i < n ==> samples[..n][i] == samples[i];
      AllPositions(samples[..n]);
      assert Positions(samples) == Positions(samples[..n]) + [n];
      hide Positions;
    }
  }

  lemma AllCarried(samples: seq<E.Sample>)
    requires forall i :: 0 <= i < |samples| ==> samples[i].readings != []
    ensures Carried(samples) == samples
  {
    AllPositions(samples);
    hide Positions;
  }

  // ---------- from the registers to the alarms ----------

  /** The alarms of a condition on a polled device follow from what its reader emitted. */
  lemma AlarmsFollowThePolls(c: D.Config, acts: seq<D.Action>, ops: seq<Alarms.Op>, eventRules: set<string>,
                             conditions: seq<EndToEnd.Condition>, i: nat, equip: string, sub: string,
                             gauges: seq<N.Gauge>, emitted: seq<A.Emission>, times: seq<int>)
    returns (k: nat)
    requires EndToEnd.Delivers(c, acts, equip) && EndToEnd.Serves(ops, eventRules, conditions, c, acts)
    requires EndToEnd.RuleIdsDistinct(conditions) && i < |conditions| && D.Run(c, acts).queue.rows == []
    requires conditions[i].rule.id !in eventRules && conditions[i].rule.id != "COMM"
    requires Feeds(acts, equip, gauges, emitted, times)
    ensures var key, hold := EndToEnd.KeyFor(conditions[i], equip, sub), conditions[i].rule.hold;
            var calls := SamplePath.CallsFor(Carried(Passed(equip, gauges, emitted, times)));
            var spells, view := AlarmHistory.Spells(ops, key), EndToEnd.ReadingOf(conditions[i], sub);
            var all, rows := AlarmHistory.Across(spells, hold), AlarmRuns.SpansOf(Alarms.Run(eventRules, ops).table, key);
            && AlarmHistory.Flat(spells) == EndToEnd.Seen(calls, equip, view)
            && k <= |all| && rows == all[k..] && EndToEnd.EndedBeforePurge(all, k, acts)
            && (DT.NoMesPurge(acts) && (forall op :: op in ops ==> !op.Restart?) ==>
                  rows == AlarmRuns.Expected(EndToEnd.Seen(calls, equip, view), hold))
  {
    hide D.Run, EndToEnd.Seen, EndToEnd.SampledCalls, AlarmRuns.SpansOf, Alarms.Run, AlarmRuns.Expected, EndToEnd.Delivers,
         EndToEnd.Serves, AlarmHistory.Spells, AlarmHistory.Across, AlarmHistory.Flat, EndToEnd.ReadingOf, EndToEnd.RuleIdsDistinct,
         DT.NoMesPurge, EndToEnd.EndedBeforePurge, Passed, Carried, SamplePath.CallsFor, SamplePath.For;
    k := EndToEnd.AlarmsFollowTheSamples(c, acts, ops, eventRules, conditions, i, equip, sub);
    SampledAreEmitted(acts, equip, gauges, emitted, times);
    var view := EndToEnd.ReadingOf(conditions[i], sub);
    var calls := SamplePath.CallsFor(Carried(Passed(equip, gauges, emitted, times)));
    EndToEnd.OnlyItsCalls(EndToEnd.SampledCalls(acts), equip, view);
    assert SamplePath.For(EndToEnd.SampledCalls(acts), equip) == calls;
  }
}
