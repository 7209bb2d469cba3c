// The filter between the readers and the buffer: values outside the physical range are dropped, and so are
// jumps, until the third.

module NoiseFilter {
  import opened Outcomes
  import opened EdgeBuffer

  /** What the configuration says about an item. */
  datatype Gauge = Gauge(key: string, range: Option<(real, real)>, maxStep: Option<real>)

  datatype Key = Key(equip: string, key: string)

  /** What the filter knows of one item: the value last let through, and the jumps dropped since. */
  datatype Trace = Trace(last: Option<real>, pending: nat)

  const UNSEEN := Trace(None, 0)
  const JUMPS := 3

  function Distance(x: real, y: real): real {
    if x < y then y - x else x - y
  }

  predicate InRange(g: Gauge, v: real) {
    g.range.Some? ==> g.range.value.0 <= v <= g.range.value.1
  }

  predicate Jumps(g: Gauge, from: real, v: real) {
    g.maxStep.Some? && Distance(v, from) > g.maxStep.value
  }

  /** `_accept` */
  function Judged(t: Trace, g: Gauge, v: real): (Trace, bool) {
    if !InRange(g, v) then (t, false)
    else if t.last.Some? && Jumps(g, t.last.value, v) && t.pending + 1 < JUMPS then (t.(pending := t.pending + 1), false)
    else (Trace(Some(v), 0), true)
  }

  // ---------- a sample ----------

  type Traces = map<Key, Trace>

  function At(traces: Traces, k: Key): Trace {
    if k in traces then traces[k] else UNSEEN
  }

  datatype Outcome = Outcome(traces: Traces, keep: seq<Reading>)

  /** `apply`: the items in their order, each judged by itself. */
  function Filtered(traces: Traces, equip: string, gauges: seq<Gauge>, values: map<string, real>): Outcome {
    if gauges == [] then Outcome(traces, [])
    else
      var g, before := gauges[|gauges| - 1], Filtered(traces, equip, gauges[..|gauges| - 1], values);
      if g.key !in values then before
      else
        var k, v := Key(equip, g.key), values[g.key];
        var (t, ok) := Judged(At(before.traces, k), g, v);
        Outcome(before.traces[k := t], before.keep + if ok then [Reading(g.key, v)] else [])
  }

  class Filter {
    var last: map<Key, real>
    var pending: map<Key, nat>

    constructor ()
      ensures Is(map[])
    {
      last, pending := map[], map[];
    }

    function TraceOf(k: Key): Trace
      reads this
    {
      Trace(if k in last then Some(last[k]) else None, if k in pending then pending[k] else 0)
    }

    ghost predicate Is(traces: Traces)
      reads this
    {
      forall k :: TraceOf(k) == At(traces, k)
    }

    method Accept(k: Key, g: Gauge, v: real) returns (ok: bool)
      modifies this
      ensures (TraceOf(k), ok) == Judged(old(TraceOf(k)), g, v)
      ensures forall other :: other != k ==> TraceOf(other) == old(TraceOf(other))
    {
      if g.range.Some? && !(g.range.value.0 <= v <= g.range.value.1) { return false; }
      if g.maxStep.Some? && k in last && Distance(v, last[k]) > g.maxStep.value {
        var n := (if k in pending then pending[k] else 0) + 1;
        pending := pending[k := n];
        if n < JUMPS { return false; }
      }
      pending := pending[k := 0];
      last := last[k := v];
      ok := true;
    }

    method Apply(equip: string, gauges: seq<Gauge>, values: map<string, real>) returns (keep: seq<Reading>)
      modifies this
      ensures forall traces :: old(Is(traces)) ==> Is(Filtered(traces, equip, gauges, values).traces)
      ensures forall traces :: old(Is(traces)) ==> keep == Filtered(traces, equip, gauges, values).keep
    {
      keep := [];
      hide Judged;
      for i := 0 to |gauges|
        invariant forall traces :: old(Is(traces)) ==>
                                     Is(Filtered(traces, equip, gauges[..i], values).traces)
                                     && keep == Filtered(traces, equip, gauges[..i], values).keep
      {
        var g := gauges[i];
        assert gauges[..i + 1][..i] == gauges[..i];
        if g.key in values {
          var ok := Accept(Key(equip, g.key), g, values[g.key]);
          if ok { keep := keep + [Reading(g.key, values[g.key])]; }
        }
      }
      assert gauges[..|gauges|] == gauges;
    }
  }

  // ---------- one item over any number of values ----------

  function After(g: Gauge, vs: seq<real>): Trace {
    if vs == [] then UNSEEN else Judged(After(g, vs[..|vs| - 1]), g, vs[|vs| - 1]).0
  }

  /** The i-th value is let through. */
  predicate Kept(g: Gauge, vs: seq<real>, i: nat)
    requires i < |vs|
  {
    Judged(After(g, vs[..i]), g, vs[i]).1
  }

  function LastKept(g: Gauge, vs: seq<real>, i: nat): (r: Option<nat>)
    requires i <= |vs|
    ensures r.Some? ==> r.value < i && Kept(g, vs, r.value) && forall j :: r.value < j < i ==> !Kept(g, vs, j)
    ensures r.None? ==> forall j :: 0 <= j < i ==> !Kept(g, vs, j)
  {
    if i == 0 then None else if Kept(g, vs, i - 1) then Some(i - 1) else LastKept(g, vs, i - 1)
  }

  /** How many values from the j-th on, before the i-th, are in range. */
  function InRangeCount(g: Gauge, vs: seq<real>, j: nat, i: nat): nat
    requires j <= i <= |vs|
  {
    if j == i then 0 else InRangeCount(g, vs, j, i - 1) + if InRange(g, vs[i - 1]) then 1 else 0
  }

  function Since(g: Gauge, vs: seq<real>, i: nat): (j: nat)
    requires i <= |vs|
    ensures j <= i
  {
    match LastKept(g, vs, i)
    case None => 0
    case Some(k) => k + 1
  }

  lemma {:induction false} TraceMeans(g: Gauge, vs: seq<real>, i: nat)
    requires i <= |vs|
    ensures var t, k := After(g, vs[..i]), LastKept(g, vs, i);
            && (k.None? ==> t == UNSEEN && InRangeCount(g, vs, 0, i) == 0)
            && (k.Some? ==> t == Trace(Some(vs[k.value]), InRangeCount(g, vs, k.value + 1, i)) && t.pending < JUMPS)
  {
    if i > 0 {
      TraceMeans(g, vs, i - 1);
      assert vs[..i][..i - 1] == vs[..i - 1];
    }
  }

  /** A value is let through exactly when it is in range, and is the first such, or no jump from the value let
      through last, or the third value in range since that one. */
  lemma KeptExactly(g: Gauge, vs: seq<real>, i: nat)
    requires i < |vs|
    ensures var k := LastKept(g, vs, i);
            Kept(g, vs, i) <==>
              InRange(g, vs[i]) && (k.None? || !Jumps(g, vs[k.value], vs[i]) || InRangeCount(g, vs, k.value + 1, i) == JUMPS - 1)
  {
    TraceMeans(g, vs, i);
  }

  lemma {:induction false} CountGrows(g: Gauge, vs: seq<real>, j: nat, m: nat, i: nat)
    requires j <= m <= i <= |vs|
    ensures InRangeCount(g, vs, j, i) == InRangeCount(g, vs, j, m) + InRangeCount(g, vs, m, i)
  {
    if m < i { CountGrows(g, vs, j, m, i - 1); }
  }

  lemma OwnCount(g: Gauge, vs: seq<real>, a: nat, b: nat)
    requires a < b <= |vs| && InRange(g, vs[a])
    ensures InRangeCount(g, vs, a, b) >= 1
  {
    CountGrows(g, vs, a, a + 1, b);
  }

  /** Of any three values in range one is let through: what the Edge passes on is never older than that. */
  lemma OneOfThree(g: Gauge, vs: seq<real>, a: nat, b: nat, d: nat)
    requires a < b < d < |vs| && InRange(g, vs[a]) && InRange(g, vs[b]) && InRange(g, vs[d])
    ensures exists i :: a <= i <= d && Kept(g, vs, i)
  {
    var k := LastKept(g, vs, d + 1);
    TraceMeans(g, vs, d + 1);
    var from := Since(g, vs, d + 1);
    if k.None? || k.value < a {
      CountGrows(g, vs, from, a, d + 1);
      CountGrows(g, vs, a, b, d + 1);
      CountGrows(g, vs, b, d, d + 1);
      OwnCount(g, vs, a, b);
      OwnCount(g, vs, b, d);
      OwnCount(g, vs, d, d + 1);
    } else {
      assert Kept(g, vs, k.value);
    }
  }

  /** The direction of the jumps does not count: values that jump up, down and up again pass with the third jump. */
  lemma DirectionIsIgnored(g: Gauge, base: real, jump: real)
    requires g.range.None? && g.maxStep.Some? && 0.0 <= g.maxStep.value < jump
    ensures var vs := [base, base + jump, base - jump, base + jump];
            Kept(g, vs, 0) && !Kept(g, vs, 1) && !Kept(g, vs, 2) && Kept(g, vs, 3)
  {
    var vs := [base, base + jump, base - jump, base + jump];
    assert vs[..0] == [] && vs[..1] == [base];
    assert vs[..2] == [base, base + jump] && vs[..2][..1] == [base];
    assert vs[..3] == [base, base + jump, base - jump] && vs[..3][..2] == vs[..2];
    assert After(g, []) == UNSEEN;
    assert After(g, vs[..1]) == Trace(Some(base), 0) by { assert vs[..1][..0] == []; }
    assert After(g, vs[..2]) == Trace(Some(base), 1);
    assert After(g, vs[..3]) == Trace(Some(base), 2);
  }

  // ---------- items do not disturb each other ----------

  ghost predicate DistinctKeys(gauges: seq<Gauge>) {
    forall i, j :: 0 <= i < j < |gauges| ==> gauges[i].key != gauges[j].key
  }

  function FilterAll(equip: string, gauges: seq<Gauge>, inputs: seq<map<string, real>>): Outcome {
    if inputs == [] then Outcome(map[], [])
    else Filtered(FilterAll(equip, gauges, inputs[..|inputs| - 1]).traces, equip, gauges, inputs[|inputs| - 1])
  }

  function ValuesOf(inputs: seq<map<string, real>>, key: string): seq<real> {
    if inputs == [] then []
    else
      var values := inputs[|inputs| - 1];
      ValuesOf(inputs[..|inputs| - 1], key) + (if key in values then [values[key]] else [])
  }

  lemma {:induction false} FilteredOther(traces: Traces, equip: string, gauges: seq<Gauge>, values: map<string, real>, key: string)
    requires forall i :: 0 <= i < |gauges| ==> gauges[i].key != key
    ensures At(Filtered(traces, equip, gauges, values).traces, Key(equip, key)) == At(traces, Key(equip, key))
    ensures forall r :: r in Filtered(traces, equip, gauges, values).keep ==> r.key != key
  {
    hide Judged;
    if gauges != [] { FilteredOther(traces, equip, gauges[..|gauges| - 1], values, key); }
  }

  lemma {:induction false} FilteredOwn(traces: Traces, equip: string, gauges: seq<Gauge>, values: map<string, real>, i: nat)
    requires DistinctKeys(gauges) && i < |gauges|
    ensures var g, out := gauges[i], Filtered(traces, equip, gauges, values);
            var k := Key(equip, g.key);
            if g.key !in values then At(out.traces, k) == At(traces, k) && forall r :: r in out.keep ==> r.key != g.key
            else
              At(out.traces, k) == Judged(At(traces, k), g, values[g.key]).0
              && forall r :: r in out.keep && r.key == g.key <==>
                               r == Reading(g.key, values[g.key]) && Judged(At(traces, k), g, values[g.key]).1
  {
    var n := |gauges| - 1;
    hide Judged;
    if i < n {
      FilteredOwn(traces, equip, gauges[..n], values, i);
    } else {
      FilteredOther(traces, equip, gauges[..n], values, gauges[n].key);
    }
  }

  lemma AfterSnoc(g: Gauge, vs: seq<real>, v: real)
    ensures After(g, vs + [v]) == Judged(After(g, vs), g, v).0
    ensures Kept(g, vs + [v], |vs|) <==> Judged(After(g, vs), g, v).1
  {
    assert (vs + [v])[..|vs|] == vs;
    hide Judged;
  }

  lemma {:induction false} TracesApart(equip: string, gauges: seq<Gauge>, inputs: seq<map<string, real>>, i: nat)
    requires DistinctKeys(gauges) && i < |gauges|
    ensures At(FilterAll(equip, gauges, inputs).traces, Key(equip, gauges[i].key)) ==
            After(gauges[i], ValuesOf(inputs, gauges[i].key))
  {
    hide Judged;
    if inputs != [] {
      var n := |inputs| - 1;
      TracesApart(equip, gauges, inputs[..n], i);
      FilteredOwn(FilterAll(equip, gauges, inputs[..n]).traces, equip, gauges, inputs[n], i);
      var before := ValuesOf(inputs[..n], gauges[i].key);
      if gauges[i].key in inputs[n] {
        AfterSnoc(gauges[i], before, inputs[n][gauges[i].key]);
      } else {
        assert before + [] == before;
      }
    }
  }

  /** Of a sample, after any samples, the reading of an item is kept exactly when its value is let through among the values
      of this item alone. */
  lemma SampleIsItemByItem(equip: string, gauges: seq<Gauge>, inputs: seq<map<string, real>>, values: map<string, real>,
                           i: nat, r: Reading)
    requires DistinctKeys(gauges) && i < |gauges| && r.key == gauges[i].key
    ensures var vs := ValuesOf(inputs + [values], r.key);
            r in FilterAll(equip, gauges, inputs + [values]).keep <==>
              r.key in values && r.value == values[r.key] && Kept(gauges[i], vs, |vs| - 1)
  {
    var all := inputs + [values];
    assert all[..|inputs|] == inputs;
    hide Judged;
    TracesApart(equip, gauges, inputs, i);
    FilteredOwn(FilterAll(equip, gauges, inputs).traces, equip, gauges, values, i);
    var before := ValuesOf(inputs, r.key);
    if r.key in values { AfterSnoc(gauges[i], before, values[r.key]); }
  }
}
