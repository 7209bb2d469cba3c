// The alarms of a condition over the whole life of the MES, restarts and purges included.  A restart loses
// the hold timers and keeps what is raised: a deviation not yet raised is timed anew, a raised alarm goes
// on.  A purge deletes cleared alarms.

module AlarmHistory {
  import opened Outcomes
  import opened Sequences
  import opened Alarms
  import opened AlarmRuns

  // ---------- the reference: the readings between two restarts, run by run ----------

  /** The readings of a key, one spell from each restart to the next. */
  function Spells(ops: seq<Op>, key: Key): (r: seq<seq<Reading>>)
    ensures r != []
  {
    if ops == [] then [[]]
    else
      var op, before := ops[|ops| - 1], Spells(ops[..|ops| - 1], key);
      var last := |before| - 1;
      if op.Restart? then before + [[]]
      else if Tells(op, key) then
        before[last := before[last] + [ReadingIn(op).value]]
      else before
  }

  function Flat(spells: seq<seq<Reading>>): seq<Reading> {
    if spells == [] then [] else Flat(spells[..|spells| - 1]) + spells[|spells| - 1]
  }

  predicate IsOn(spans: seq<Span>) {
    spans != [] && spans[|spans| - 1].end.None?
  }

  /** A spell after these alarms: one that is on ends at the first conforming reading; the runs that begin in
      the spell are alarms if they last long enough within it. */
  function Resumed(spans: seq<Span>, s: seq<Reading>, hold: int): seq<Span> {
    if !IsOn(spans) then spans + Expected(s, hold)
    else
      var n, last := RunLength(s), |spans| - 1;
      if n == |s| then spans
      else spans[..last] + [Span(spans[last].start, Some(s[n].ts))] + Expected(s[n..], hold)
  }

  function Across(spells: seq<seq<Reading>>, hold: int): seq<Span> {
    if spells == [] then [] else Resumed(Across(spells[..|spells| - 1], hold), spells[|spells| - 1], hold)
  }

  // ---------- step by step ----------

  const QUIET := Watch(None, false, [])

  function Rebooted(w: Watch): Watch {
    w.(timer := None)
  }

  function WatchedAcross(spells: seq<seq<Reading>>, hold: int): Watch {
    if spells == [] then QUIET
    else Watching(Rebooted(WatchedAcross(spells[..|spells| - 1], hold)), spells[|spells| - 1], hold)
  }

  /** At most the last span has no end, and then the alarm is on. */
  ghost predicate Steady(w: Watch) {
    && (forall i :: 0 <= i < |w.spans| - 1 ==> w.spans[i].end.Some?)
    && (w.open <==> IsOn(w.spans))
  }

  lemma SampledSteady(w: Watch, r: Reading, hold: int)
    requires Steady(w)
    ensures Steady(Sampled(w, r, hold))
  {
  }

  lemma {:induction false} WatchingSteady(w: Watch, s: seq<Reading>, hold: int)
    requires Steady(w)
    ensures Steady(Watching(w, s, hold))
    decreases |s|
  {
    hide Steady, Sampled;
    if s != [] {
      SampledSteady(w, s[0], hold);
      WatchingSteady(Sampled(w, s[0], hold), s[1..], hold);
    }
  }

  /** An alarm that is on stays as it is while the readings deviate. */
  lemma {:induction false} StaysOn(w: Watch, s: seq<Reading>, hold: int)
    requires w.open && forall i :: 0 <= i < |s| ==> s[i].dev
    ensures Watching(w, s, hold).open && Watching(w, s, hold).spans == w.spans
    decreases |s|
  {
    if s != [] { StaysOn(Sampled(w, s[0], hold), s[1..], hold); }
  }

  lemma ClosedOn(spans: seq<Span>, ts: int)
    requires IsOn(spans) && forall i :: 0 <= i < |spans| - 1 ==> spans[i].end.Some?
    ensures Closed(spans, ts) == spans[..|spans| - 1] + [Span(spans[|spans| - 1].start, Some(ts))]
    ensures AllEnded(Closed(spans, ts))
  {
  }

  lemma ResumedIsWatched(w: Watch, s: seq<Reading>, hold: int)
    requires Steady(w) && w.timer.None? && Ordered(s)
    ensures Watching(w, s, hold).spans == Resumed(w.spans, s, hold)
  {
    hide Expected;
    if !w.open {
      WatchingFindsTheRuns(w, s, hold);
    } else {
      var n := RunLength(s);
      StaysOn(w, s[..n], hold);
      WatchingSplit(w, s, n, hold);
      if n == |s| {
        assert s[..n] == s;
      } else {
        EndsAt(Watching(w, s[..n], hold), s[n..], hold);
      }
    }
  }

  lemma EndsAt(w: Watch, s: seq<Reading>, hold: int)
    requires w.open && IsOn(w.spans) && s != [] && !s[0].dev && Ordered(s)
    requires forall i :: 0 <= i < |w.spans| - 1 ==> w.spans[i].end.Some?
    ensures Watching(w, s, hold).spans ==
            w.spans[..|w.spans| - 1] + [Span(w.spans[|w.spans| - 1].start, Some(s[0].ts))] + Expected(s, hold)
  {
    ClosedOn(w.spans, s[0].ts);
    WatchingFindsTheRuns(Sampled(w, s[0], hold), s[1..], hold);
    assert Expected(s, hold) == Expected(s[1..], hold);
  }

  lemma {:induction false} AcrossIsWatched(spells: seq<seq<Reading>>, hold: int)
    requires Ordered(Flat(spells))
    ensures WatchedAcross(spells, hold).spans == Across(spells, hold) && Steady(WatchedAcross(spells, hold))
  {
    if spells != [] {
      var n := |spells| - 1;
      OrderedParts(Flat(spells[..n]), spells[n]);
      AcrossIsWatched(spells[..n], hold);
      hide Watching, Resumed, Ordered;
      var w := Rebooted(WatchedAcross(spells[..n], hold));
      ResumedIsWatched(w, spells[n], hold);
      WatchingSteady(w, spells[n], hold);
    }
  }

  lemma OrderedParts(a: seq<Reading>, b: seq<Reading>)
    requires Ordered(a + b)
    ensures Ordered(a) && Ordered(b)
  {
    assert forall i :: 0 <= i < |a| ==> a[i] == (a + b)[i];
    assert forall i :: 0 <= i < |b| ==> b[i] == (a + b)[|a| + i];
  }

  // ---------- what purges leave ----------

  predicate Over(s: Span, cutoff: int) {
    s.end.Some? && s.end.value < cutoff
  }

  /** The watch shows the full one without its first k spans. */
  ghost predicate Trimmed(w: Watch, full: Watch, k: nat) {
    && k <= |full.spans| && w == full.(spans := full.spans[k..])
    && (full.open ==> k < |full.spans|)
  }

  /** Ends never go back in time, nor beyond the last reading. */
  ghost predicate Timely(spans: seq<Span>, s: seq<Reading>) {
    && (forall i, j :: 0 <= i < j < |spans| && spans[i].end.Some? && spans[j].end.Some? ==> spans[i].end.value <= spans[j].end.value)
    && (forall i :: 0 <= i < |spans| && spans[i].end.Some? ==> s != [] && spans[i].end.value <= s[|s| - 1].ts)
  }

  lemma SampledTrimmed(w: Watch, full: Watch, k: nat, r: Reading, hold: int)
    requires Trimmed(w, full, k) && Steady(full)
    ensures Trimmed(Sampled(w, r, hold), Sampled(full, r, hold), k)
  {
    assert Closed(full.spans, r.ts)[k..] == Closed(full.spans[k..], r.ts);
  }

  lemma SampledTimely(w: Watch, s: seq<Reading>, r: Reading, hold: int)
    requires Timely(w.spans, s) && Steady(w) && Ordered(s + [r])
    ensures Timely(Sampled(w, r, hold).spans, s + [r])
  {
    if s != [] { assert (s + [r])[|s| - 1].ts <= (s + [r])[|s|].ts; }
  }

  lemma SpansSnoc(table: seq<Alarm>, a: Alarm, key: Key)
    ensures SpansOf(table + [a], key) == SpansOf(table, key) + if a.key == key then [Span(a.raised, a.cleared)] else []
  {
    assert (table + [a])[..|table|] == table;
  }

  /** The spans a purge leaves. */
  function Left(spans: seq<Span>, cutoff: int): seq<Span> {
    Filter(spans, (s: Span) => !Over(s, cutoff))
  }

  function LeftAlarms(table: seq<Alarm>, cutoff: int): seq<Alarm> {
    Filter(table, (a: Alarm) => !Expired(a, cutoff))
  }

  lemma LeftSnoc(spans: seq<Span>, s: Span, cutoff: int)
    ensures Left(spans + [s], cutoff) == Left(spans, cutoff) + if Over(s, cutoff) then [] else [s]
  {
    assert (spans + [s])[..|spans|] == spans;
    hide Over;
  }

  lemma LeftAlarmsSnoc(table: seq<Alarm>, a: Alarm, cutoff: int)
    ensures LeftAlarms(table + [a], cutoff) == LeftAlarms(table, cutoff) + if Expired(a, cutoff) then [] else [a]
  {
    assert (table + [a])[..|table|] == table;
    hide Expired;
  }

  lemma {:induction false} SpansPurged(table: seq<Alarm>, key: Key, cutoff: int)
    requires forall i :: 0 <= i < |table| ==> (table[i].status == Cleared <==> table[i].cleared.Some?)
    ensures SpansOf(LeftAlarms(table, cutoff), key) == Left(SpansOf(table, key), cutoff)
  {
    if table != [] {
      var n := |table| - 1;
      var a, before := table[n], LeftAlarms(table[..n], cutoff);
      assert table == table[..n] + [a];
      assert Expired(a, cutoff) <==> Over(Span(a.raised, a.cleared), cutoff);
      SpansPurged(table[..n], key, cutoff);
      hide LeftAlarms, Left, Expired, Over;
      LeftAlarmsSnoc(table[..n], a, cutoff);
      SpansSnoc(before, a, key);
      LeftSnoc(SpansOf(table[..n], key), Span(a.raised, a.cleared), cutoff);
      hide SpansOf;
      if a.key != key {
        assert SpansOf(table, key) == SpansOf(table[..n], key);
      }
    }
  }

  /** All but the last have ended, one after the other. */
  ghost predicate InTurn(spans: seq<Span>) {
    && (forall i :: 0 <= i < |spans| - 1 ==> spans[i].end.Some?)
    && (forall i, j :: 0 <= i < j < |spans| && spans[i].end.Some? && spans[j].end.Some? ==> spans[i].end.value <= spans[j].end.value)
  }

  lemma NoneOver(spans: seq<Span>, cutoff: int)
    requires InTurn(spans) && (spans == [] || !Over(spans[0], cutoff))
    ensures Left(spans, cutoff) == spans
  {
    forall x | x in spans
      ensures !Over(x, cutoff)
    {
      var j :| 0 <= j < |spans| && spans[j] == x;
    }
    hide InTurn, Over;
    FilterAll(spans, (s: Span) => !Over(s, cutoff));
  }

  lemma FirstOver(spans: seq<Span>, cutoff: int)
    requires spans != [] && Over(spans[0], cutoff)
    ensures Left(spans, cutoff) == Left(spans[1..], cutoff)
  {
    hide Over;
    FilterNone(spans[..1], (s: Span) => !Over(s, cutoff));
    FilterAppend(spans[..1], spans[1..], (s: Span) => !Over(s, cutoff));
    assert spans == spans[..1] + spans[1..];
  }

  lemma TailInTurn(spans: seq<Span>)
    requires InTurn(spans) && spans != []
    ensures InTurn(spans[1..])
  {
    var rest := spans[1..];
    assert forall i :: 0 <= i < |rest| ==> rest[i] == spans[i + 1];
  }

  /** A purge takes spans from the front only. */
  lemma {:induction false} PurgeTakesTheFront(spans: seq<Span>, cutoff: int) returns (m: nat)
    requires InTurn(spans)
    ensures m <= |spans| && Left(spans, cutoff) == spans[m..]
    ensures forall i :: 0 <= i < m ==> Over(spans[i], cutoff)
    decreases |spans|
  {
    m := 0;
    if spans != [] && Over(spans[0], cutoff) {
      TailInTurn(spans);
      hide InTurn, Over, Left;
      FirstOver(spans, cutoff);
      m := PurgeTakesTheFront(spans[1..], cutoff);
      m := m + 1;
    } else {
      hide InTurn, Over, Left;
      NoneOver(spans, cutoff);
    }
  }

  lemma SuffixInTurn(full: Watch, s: seq<Reading>, k: nat)
    requires Steady(full) && Timely(full.spans, s) && k <= |full.spans|
    ensures InTurn(full.spans[k..])
  {
  }

  lemma PurgeObserved(e: Engine, key: Key, cutoff: int)
    requires Consistent(e)
    ensures Observed(Purged(e, cutoff), key) ==
            Observed(e, key).(spans := Left(Observed(e, key).spans, cutoff))
  {
    assert forall i :: 0 <= i < |e.table| ==> (e.table[i].status == Cleared <==> e.table[i].cleared.Some?);
    hide Consistent, SpansOf, Filter, Left;
    SpansPurged(e.table, key, cutoff);
    assert Purged(e, cutoff).table == LeftAlarms(e.table, cutoff);
  }

  lemma FrontTaken(spans: seq<Span>, k: nat, n: nat, cutoff: int)
    requires k + n <= |spans| && forall i :: 0 <= i < n ==> Over(spans[k..][i], cutoff)
    ensures spans[k..][n..] == spans[k + n..]
    ensures forall i :: k <= i < k + n ==> Over(spans[i], cutoff)
  {
    hide Over;
    forall i | k <= i < k + n
      ensures Over(spans[i], cutoff)
    {
      assert spans[i] == spans[k..][i - k];
    }
  }

  lemma OpenStays(full: Watch, m: nat, cutoff: int)
    requires Steady(full) && m <= |full.spans| && (m > 0 ==> Over(full.spans[m - 1], cutoff))
    ensures full.open ==> m < |full.spans|
  {
  }

  lemma PurgeTrims(e: Engine, key: Key, cutoff: int, full: Watch, s: seq<Reading>, k: nat) returns (m: nat)
    requires Consistent(e) && Trimmed(Observed(e, key), full, k) && Steady(full) && Timely(full.spans, s)
    ensures k <= m && Trimmed(Observed(Purged(e, cutoff), key), full, m)
    ensures forall i :: k <= i < m ==> Over(full.spans[i], cutoff)
  {
    hide Consistent, Left, InTurn, Timely, Observed, Purged, Steady, Over;
    PurgeObserved(e, key, cutoff);
    SuffixInTurn(full, s, k);
    var n := PurgeTakesTheFront(full.spans[k..], cutoff);
    m := k + n;
    FrontTaken(full.spans, k, n, cutoff);
    if n > 0 { OpenStays(full, m, cutoff); }
  }

  // ---------- runs ----------

  ghost predicate PurgedBefore(ops: seq<Op>, cutoff: int) {
    exists i :: 0 <= i < |ops| && ops[i].Purge? && ops[i].cutoff >= cutoff
  }

  /** The first k alarms ended before the cutoff of some purge. */
  ghost predicate Outdated(spans: seq<Span>, k: nat, ops: seq<Op>) {
    k <= |spans| && forall i :: 0 <= i < k ==> spans[i].end.Some? && PurgedBefore(ops, spans[i].end.value + 1)
  }

  ghost predicate Follows(e: Engine, ops: seq<Op>, key: Key, hold: int, k: nat) {
    var full := WatchedAcross(Spells(ops, key), hold);
    && Trimmed(Observed(e, key), full, k) && Steady(full) && Timely(full.spans, ReadingsOf(ops, key))
    && Outdated(full.spans, k, ops)
  }

  lemma SpellSnoc(spells: seq<seq<Reading>>, r: Reading, hold: int)
    requires spells != []
    ensures var last := |spells| - 1;
            WatchedAcross(spells[last := spells[last] + [r]], hold) == Sampled(WatchedAcross(spells, hold), r, hold)
    ensures Flat(spells[|spells| - 1 := spells[|spells| - 1] + [r]]) == Flat(spells) + [r]
  {
    var last := |spells| - 1;
    var more := spells[last := spells[last] + [r]];
    assert more[..last] == spells[..last];
    WatchingSnoc(Rebooted(WatchedAcross(spells[..last], hold)), spells[last], r, hold);
  }

  lemma SpellBegins(spells: seq<seq<Reading>>, hold: int)
    ensures WatchedAcross(spells + [[]], hold) == Rebooted(WatchedAcross(spells, hold))
    ensures Flat(spells + [[]]) == Flat(spells)
  {
    assert (spells + [[]])[..|spells|] == spells;
  }

  /** The spells hold all readings, in order. */
  lemma {:induction false} SpellsAreReadings(ops: seq<Op>, key: Key)
    ensures Flat(Spells(ops, key)) == ReadingsOf(ops, key)
  {
    if ops != [] {
      var op, before := ops[|ops| - 1], Spells(ops[..|ops| - 1], key);
      SpellsAreReadings(ops[..|ops| - 1], key);
      SpellBegins(before, 0);
      hide Flat, ReadingIn;
      if Tells(op, key) {
        SpellSnoc(before, ReadingIn(op).value, 0);
      }
    }
  }

  lemma OutdatedLater(spans: seq<Span>, k: nat, ops: seq<Op>, op: Op)
    requires Outdated(spans, k, ops)
    ensures Outdated(spans, k, ops + [op])
  {
    forall i | 0 <= i < k
      ensures PurgedBefore(ops + [op], spans[i].end.value + 1)
    {
      var j :| 0 <= j < |ops| && ops[j].Purge? && ops[j].cutoff >= spans[i].end.value + 1;
      assert (ops + [op])[j] == ops[j];
    }
  }

  lemma OutdatedSampled(w: Watch, r: Reading, hold: int, k: nat, ops: seq<Op>)
    requires Outdated(w.spans, k, ops)
    ensures Outdated(Sampled(w, r, hold).spans, k, ops)
  {
    hide PurgedBefore;
  }

  lemma OutdatedByPurge(spans: seq<Span>, k: nat, m: nat, ops: seq<Op>, cutoff: int)
    requires Outdated(spans, k, ops) && k <= m <= |spans| && forall i :: k <= i < m ==> Over(spans[i], cutoff)
    ensures Outdated(spans, m, ops + [Op.Purge(cutoff)])
  {
    OutdatedLater(spans, k, ops, Op.Purge(cutoff));
    var more := ops + [Op.Purge(cutoff)];
    assert more[|ops|].Purge? && more[|ops|].cutoff == cutoff;
    forall i | k <= i < m
      ensures spans[i].end.Some? && PurgedBefore(more, spans[i].end.value + 1)
    {
      assert Over(spans[i], cutoff);
    }
  }

  lemma RestartObserved(e: Engine, key: Key)
    requires Consistent(e)
    ensures Observed(Restarted(e), key) == Rebooted(Observed(e, key))
  {
    IndexIsTheTable(e);
    hide Rebuilt, SpansOf;
  }

  lemma StepSampled(eventRules: set<string>, e: Engine, ops: seq<Op>, op: Op, key: Key, hold: int, k: nat)
    requires Consistent(e) && key.rule !in eventRules && OnlyChecked(op, key, hold)
    requires Follows(e, ops, key, hold, k) && Tells(op, key) && Ordered(ReadingsOf(ops + [op], key))
    ensures Follows(Apply(eventRules, e, op), ops + [op], key, hold, k)
  {
    var r := ReadingIn(op).value;
    assert (ops + [op])[..|ops|] == ops;
    hide Consistent, Observed, Apply, Deviates, Sampled, Ordered, Trimmed, Steady, Timely, Outdated, WatchedAcross, OnlyChecked;
    ApplyObserved(eventRules, e, op, key, hold);
    SpellSnoc(Spells(ops, key), r, hold);
    var full := WatchedAcross(Spells(ops, key), hold);
    SampledTrimmed(Observed(e, key), full, k, r, hold);
    SampledSteady(full, r, hold);
    SampledTimely(full, ReadingsOf(ops, key), r, hold);
    OutdatedSampled(full, r, hold, k, ops);
    OutdatedLater(Sampled(full, r, hold).spans, k, ops, op);
  }

  lemma StepOther(eventRules: set<string>, e: Engine, ops: seq<Op>, op: Op, key: Key, hold: int, k: nat)
    requires Consistent(e) && key.rule !in eventRules && OnlyChecked(op, key, hold)
    requires Follows(e, ops, key, hold, k) && !op.Purge? && !Tells(op, key)
    ensures Follows(Apply(eventRules, e, op), ops + [op], key, hold, k)
  {
    assert (ops + [op])[..|ops|] == ops;
    var full := WatchedAcross(Spells(ops, key), hold);
    OutdatedLater(full.spans, k, ops, op);
    assert ReadingsOf(ops + [op], key) == ReadingsOf(ops, key);
    hide Consistent, Observed, Outdated, WatchedAcross, OnlyChecked, Timely, ReadingsOf;
    if op.Restart? {
      RestartObserved(e, key);
      SpellBegins(Spells(ops, key), hold);
    } else {
      ApplyObserved(eventRules, e, op, key, hold);
    }
  }

  lemma PurgeTellsNothing(ops: seq<Op>, cutoff: int, key: Key)
    ensures ReadingsOf(ops + [Op.Purge(cutoff)], key) == ReadingsOf(ops, key)
    ensures Spells(ops + [Op.Purge(cutoff)], key) == Spells(ops, key)
  {
    assert (ops + [Op.Purge(cutoff)])[..|ops|] == ops;
  }

  lemma StepPurged(eventRules: set<string>, e: Engine, ops: seq<Op>, cutoff: int, key: Key, hold: int, k: nat) returns (m: nat)
    requires Consistent(e) && Follows(e, ops, key, hold, k)
    ensures Follows(Apply(eventRules, e, Op.Purge(cutoff)), ops + [Op.Purge(cutoff)], key, hold, m)
  {
    hide Consistent, Observed, Steady, Trimmed, WatchedAcross, Purged, Timely, ReadingsOf, Spells, Outdated;
    var full := WatchedAcross(Spells(ops, key), hold);
    PurgeTellsNothing(ops, cutoff, key);
    m := PurgeTrims(e, key, cutoff, full, ReadingsOf(ops, key), k);
    TrimmedInside(Observed(Purged(e, cutoff), key), full, m);
    OutdatedByPurge(full.spans, k, m, ops, cutoff);
  }

  lemma TrimmedInside(w: Watch, full: Watch, k: nat)
    requires Trimmed(w, full, k)
    ensures k <= |full.spans|
  {
  }

  lemma {:induction false} RunFollows(eventRules: set<string>, ops: seq<Op>, key: Key, hold: int) returns (k: nat)
    requires key.rule !in eventRules && forall op :: op in ops ==> OnlyChecked(op, key, hold)
    requires Ordered(ReadingsOf(ops, key))
    ensures Follows(Run(eventRules, ops), ops, key, hold, k)
    ensures (forall op :: op in ops ==> !op.Purge?) ==> k == 0
  {
    hide Follows, Consistent, Ordered, OnlyChecked, ReadingsOf, Apply, Open, Rebuilt, KeyOf;
    if ops == [] {
      k := 0;
      assert Follows(NO_ALARMS, [], key, hold, 0) by { NothingFollows(key, hold); }
    } else {
      var n := |ops| - 1;
      var op := ops[n];
      assert op in ops && forall o :: o in ops[..n] ==> o in ops;
      ReadingsPrefix(ops, key);
      k := RunFollows(eventRules, ops[..n], key, hold);
      IndexAlwaysTheTable(eventRules, ops[..n]);
      var e := Run(eventRules, ops[..n]);
      assert ops[..n] + [op] == ops;
      hide Run;
      if op.Purge? {
        k := StepPurged(eventRules, e, ops[..n], op.cutoff, key, hold, k);
      } else if Tells(op, key) {
        StepSampled(eventRules, e, ops[..n], op, key, hold, k);
      } else {
        StepOther(eventRules, e, ops[..n], op, key, hold, k);
      }
    }
  }

  lemma NothingFollows(key: Key, hold: int)
    ensures Follows(NO_ALARMS, [], key, hold, 0)
  {
    var none: seq<seq<Reading>> := [[]];
    assert Spells([], key) == none && none[..0] == [];
  }

  lemma ReadingsPrefix(ops: seq<Op>, key: Key)
    requires ops != [] && Ordered(ReadingsOf(ops, key))
    ensures Ordered(ReadingsOf(ops[..|ops| - 1], key))
  {
    var op := ops[|ops| - 1];
    OrderedParts(ReadingsOf(ops[..|ops| - 1], key),
                 if Tells(op, key) then [ReadingIn(op).value] else []);
  }

  /** For a condition rule whose samples arrive in time order, with checks of other keys, events,
      communication alarms, acknowledgements, purges and restarts in between: the alarm rows of the key
      are the alarms of its readings, from some alarm on.  A deviation a restart finds unraised is timed
      anew, a raised one goes on.  The missing first ones are cleared alarms, each ended before the cutoff of a purge. */
  lemma AlarmsAcrossRestarts(eventRules: set<string>, ops: seq<Op>, key: Key, hold: int) returns (k: nat)
    requires key.rule !in eventRules && forall op :: op in ops ==> OnlyChecked(op, key, hold)
    requires Ordered(ReadingsOf(ops, key))
    ensures Flat(Spells(ops, key)) == ReadingsOf(ops, key)
    ensures var all := Across(Spells(ops, key), hold);
            k <= |all| && SpansOf(Run(eventRules, ops).table, key) == all[k..] && Outdated(all, k, ops)
    ensures (forall op :: op in ops ==> !op.Purge?) ==> k == 0
  {
    k := RunFollows(eventRules, ops, key, hold);
    SpellsAreReadings(ops, key);
    hide Ordered, Across, WatchedAcross, ReadingsOf, Outdated;
    AcrossIsWatched(Spells(ops, key), hold);
  }

  lemma {:induction false} OneSpell(ops: seq<Op>, key: Key)
    requires forall op :: op in ops ==> !op.Restart?
    ensures |Spells(ops, key)| == 1
  {
    if ops != [] {
      assert ops[|ops| - 1] in ops && forall op :: op in ops[..|ops| - 1] ==> op in ops;
      OneSpell(ops[..|ops| - 1], key);
    }
  }

  /** Without restarts and purges: one alarm for each maximal deviating run that lasts at least the hold time,
      raised at its first sample and cleared at the first conforming one. */
  lemma AlarmsAreTheRuns(eventRules: set<string>, ops: seq<Op>, key: Key, hold: int)
    requires key.rule !in eventRules && forall op :: op in ops ==> OnlyChecked(op, key, hold)
    requires Ordered(ReadingsOf(ops, key)) && forall op :: op in ops ==> !op.Restart? && !op.Purge?
    ensures SpansOf(Run(eventRules, ops).table, key) == Expected(ReadingsOf(ops, key), hold)
  {
    var k := AlarmsAcrossRestarts(eventRules, ops, key, hold);
    OneSpell(ops, key);
    hide SpansOf, Run, Expected, ReadingsOf, OnlyChecked, Ordered, Outdated;
    var s := Spells(ops, key);
    assert s[..0] == [] && Flat(s) == s[0] && Across(s, hold) == Expected(s[0], hold);
  }
}
