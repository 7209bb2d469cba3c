// What the step-by-step alarm engine amounts to: one alarm for each maximal run of deviating samples
// that lasts long enough, whatever happens to other alarms in between.

module AlarmRuns {
  import opened Outcomes
  import opened Sequences
  import opened Alarms

  /** One look at a condition.  `started` is the time a timer begun now would have, `now` the time it is compared
      with, `ts` the time of a clearing; for a checked value all three are the time of the value. */
  datatype Reading = Reading(ts: int, dev: bool, started: int, now: int)

  /** An alarm as the operator sees it: from the start of the deviation to its end, if it has ended. */
  datatype Span = Span(start: int, end: Option<int>)

  // ---------- the reference: maximal runs ----------

  function RunLength(s: seq<Reading>): (n: nat)
    ensures n <= |s| && (forall i :: 0 <= i < n ==> s[i].dev) && (n < |s| ==> !s[n].dev)
  {
    if s == [] || !s[0].dev then 0 else 1 + RunLength(s[1..])
  }

  /** One span for each maximal deviating run that lasts at least `hold`. */
  function Expected(s: seq<Reading>, hold: int): seq<Span>
    decreases |s|
  {
    if s == [] then []
    else if !s[0].dev then Expected(s[1..], hold)
    else
      var n := RunLength(s);
      var end := if n < |s| then Some(s[n].ts) else None;
      (if s[n - 1].now - s[0].started >= hold then [Span(s[0].started, end)] else []) + Expected(s[n..], hold)
  }

  ghost predicate MaximalRun(s: seq<Reading>, i: nat, j: nat) {
    && i < j <= |s| && (forall k :: i <= k < j ==> s[k].dev)
    && (i == 0 || !s[i - 1].dev) && (j == |s| || !s[j].dev)
  }

  ghost predicate SpanOf(s: seq<Reading>, hold: int, i: nat, j: nat, span: Span) {
    && MaximalRun(s, i, j) && s[j - 1].now - s[i].started >= hold
    && span == Span(s[i].started, if j < |s| then Some(s[j].ts) else None)
  }

  lemma RunInRest(s: seq<Reading>, m: nat, i: nat, j: nat)
    requires m <= i < j <= |s| && (m == 0 || m == |s| || !s[m - 1].dev || !s[m].dev)
    ensures MaximalRun(s, i, j) ==> MaximalRun(s[m..], i - m, j - m)
    ensures MaximalRun(s[m..], i - m, j - m) && (i > m || m == 0 || !s[m - 1].dev) ==> MaximalRun(s, i, j)
  {
    var t := s[m..];
    assert forall k :: 0 <= k < |t| ==> t[k] == s[m + k];
    assert forall k :: m <= k < |s| ==> s[k] == t[k - m];
  }

  lemma FirstRun(s: seq<Reading>, i: nat, j: nat)
    requires s != [] && s[0].dev && MaximalRun(s, i, j)
    ensures i == 0 ==> j == RunLength(s)
    ensures i > 0 ==> i > RunLength(s)
  {
    hide RunLength;
    assert i > 0 ==> !s[i - 1].dev;
  }

  function HeadLength(s: seq<Reading>): (m: nat)
    requires s != []
    ensures 1 <= m <= |s| && (m == |s| || !s[m].dev || !s[m - 1].dev)
  {
    if s[0].dev then RunLength(s) else 1
  }

  lemma ExpectedStep(s: seq<Reading>, hold: int, span: Span)
    requires s != []
    ensures span in Expected(s, hold) <==>
            SpanOf(s, hold, 0, HeadLength(s), span) || span in Expected(s[HeadLength(s)..], hold)
  {
  }

  /** A run is the head of the sequence or lies behind it. */
  lemma RunPosition(s: seq<Reading>, i: nat, j: nat)
    requires s != [] && MaximalRun(s, i, j)
    ensures (i == 0 && j == HeadLength(s)) || (i >= HeadLength(s) && MaximalRun(s[HeadLength(s)..], i - HeadLength(s), j - HeadLength(s)))
  {
    if s[0].dev { FirstRun(s, i, j); }
    if i >= HeadLength(s) { RunInRest(s, HeadLength(s), i, j); }
  }

  lemma RunIsExpected(s: seq<Reading>, hold: int, span: Span, i: nat, j: nat)
    requires SpanOf(s, hold, i, j, span)
    ensures span in Expected(s, hold)
    decreases |s|
  {
    hide Expected, HeadLength;
    var m := HeadLength(s);
    ExpectedStep(s, hold, span);
    RunPosition(s, i, j);
    hide MaximalRun;
    if i >= m { RunIsExpected(s[m..], hold, span, i - m, j - m); }
  }

  lemma ExpectedIsRun(s: seq<Reading>, hold: int, span: Span) returns (i: nat, j: nat)
    requires span in Expected(s, hold)
    ensures SpanOf(s, hold, i, j, span)
    decreases |s|
  {
    var m := HeadLength(s);
    ExpectedStep(s, hold, span);
    if SpanOf(s, hold, 0, m, span) {
      i, j := 0, m;
    } else {
      i, j := ExpectedIsRun(s[m..], hold, span);
      i, j := m + i, m + j;
      RunInRest(s, m, i, j);
      assert i == m ==> s[m..][0].dev;
    }
  }

  /** The spans are those of the maximal runs that last long enough, no more and no fewer. */
  lemma ExpectedAreTheRuns(s: seq<Reading>, hold: int, span: Span)
    ensures span in Expected(s, hold) <==> exists i: nat, j: nat :: SpanOf(s, hold, i, j, span)
  {
    if span in Expected(s, hold) { var i, j := ExpectedIsRun(s, hold, span); }
    if i: nat, j: nat :| SpanOf(s, hold, i, j, span) { RunIsExpected(s, hold, span, i, j); }
  }

  // ---------- one key watched step by step ----------

  datatype Watch = Watch(timer: Option<int>, open: bool, spans: seq<Span>)

  function Closed(spans: seq<Span>, ts: int): (r: seq<Span>)
    ensures |r| == |spans|
    ensures forall i :: 0 <= i < |spans| ==> r[i] == if spans[i].end.None? then Span(spans[i].start, Some(ts)) else spans[i]
  {
    seq(|spans|, i requires 0 <= i < |spans| => if spans[i].end.None? then Span(spans[i].start, Some(ts)) else spans[i])
  }

  function Sampled(w: Watch, r: Reading, hold: int): Watch {
    if !r.dev then Watch(None, false, if w.open then Closed(w.spans, r.ts) else w.spans)
    else
      var start := if w.timer.Some? then w.timer.value else r.started;
      if w.open || r.now - start < hold then Watch(Some(start), w.open, w.spans)
      else Watch(Some(start), true, w.spans + [Span(start, None)])
  }

  function Watching(w: Watch, s: seq<Reading>, hold: int): Watch
    decreases |s|
  {
    if s == [] then w else Watching(Sampled(w, s[0], hold), s[1..], hold)
  }

  ghost predicate Ordered(s: seq<Reading>) {
    forall i, j :: 0 <= i < j < |s| ==> s[i].ts <= s[j].ts && s[i].now <= s[j].now
  }

  ghost predicate AllEnded(spans: seq<Span>) {
    forall i :: 0 <= i < |spans| ==> spans[i].end.Some?
  }

  lemma {:induction false} WatchingSplit(w: Watch, s: seq<Reading>, n: nat, hold: int)
    requires n <= |s|
    ensures Watching(w, s, hold) == Watching(Watching(w, s[..n], hold), s[n..], hold)
    decreases n
  {
    if n > 0 {
      WatchingSplit(Sampled(w, s[0], hold), s[1..], n - 1, hold);
      assert s[1..][..n - 1] == s[..n][1..] && s[1..][n - 1..] == s[n..];
    } else {
      assert s[0..] == s;
    }
  }

  lemma WatchingSnoc(w: Watch, s: seq<Reading>, r: Reading, hold: int)
    ensures Watching(w, s + [r], hold) == Sampled(Watching(w, s, hold), r, hold)
  {
    var all := s + [r];
    WatchingSplit(w, all, |s|, hold);
    assert all[..|s|] == s && all[|s|..] == [r] && [r][1..] == [];
    assert Watching(Watching(w, s, hold), [r], hold) == Watching(Sampled(Watching(w, s, hold), r, hold), [], hold);
  }

  /** Inside a run: the timer stands at its start, and the alarm is on as soon as it has lasted. */
  lemma {:induction false} InsideRun(w: Watch, s: seq<Reading>, n: nat, hold: int)
    requires w.timer.None? && !w.open && Ordered(s) && 1 <= n <= |s| && forall i :: 0 <= i < n ==> s[i].dev
    ensures Watching(w, s[..n], hold) ==
            var on := s[n - 1].now - s[0].started >= hold;
            Watch(Some(s[0].started), on, w.spans + if on then [Span(s[0].started, None)] else [])
    decreases n
  {
    assert s[..n] == s[..n - 1] + [s[n - 1]];
    WatchingSnoc(w, s[..n - 1], s[n - 1], hold);
    if n > 1 {
      InsideRun(w, s, n - 1, hold);
    } else {
      assert s[..0] == [];
      assert w.spans + [] == w.spans;
    }
  }

  lemma ClosedLast(spans: seq<Span>, start: int, ts: int)
    requires AllEnded(spans)
    ensures Closed(spans + [Span(start, None)], ts) == spans + [Span(start, Some(ts))]
    ensures Closed(spans, ts) == spans
  {
  }

  /** Step by step comes to the same as run by run. */
  lemma {:induction false} WatchingFindsTheRuns(w: Watch, s: seq<Reading>, hold: int)
    requires w.timer.None? && !w.open && AllEnded(w.spans) && Ordered(s)
    ensures Watching(w, s, hold).spans == w.spans + Expected(s, hold)
    decreases |s|
  {
    if s == [] {
    } else if !s[0].dev {
      WatchingFindsTheRuns(w, s[1..], hold);
    } else {
      var n := RunLength(s);
      InsideRun(w, s, n, hold);
      WatchingSplit(w, s, n, hold);
      var v := Watching(w, s[..n], hold);
      if n == |s| {
        assert s[n..] == [];
      } else {
        AfterRun(w, v, s, n, hold);
      }
    }
  }

  lemma {:induction false} AfterRun(w: Watch, v: Watch, s: seq<Reading>, n: nat, hold: int)
    requires AllEnded(w.spans) && Ordered(s) && 1 <= n < |s| && n == RunLength(s)
    requires var on := s[n - 1].now - s[0].started >= hold;
             v == Watch(Some(s[0].started), on, w.spans + if on then [Span(s[0].started, None)] else [])
    ensures Watching(v, s[n..], hold).spans == w.spans + Expected(s, hold)
    decreases |s|, 0
  {
    var u := Sampled(v, s[n], hold);
    ClosedLast(w.spans, s[0].started, s[n].ts);
    assert s[n..][1..] == s[n + 1..];
    assert u.spans == w.spans + (if s[n - 1].now - s[0].started >= hold then [Span(s[0].started, Some(s[n].ts))] else []);
    WatchingFindsTheRuns(u, s[n + 1..], hold);
    assert Expected(s[n..], hold) == Expected(s[n + 1..], hold);
  }

  // ---------- the engine seen through one key ----------

  function SpansOf(table: seq<Alarm>, key: Key): seq<Span> {
    if table == [] then []
    else
      var a := table[|table| - 1];
      SpansOf(table[..|table| - 1], key) + (if a.key == key then [Span(a.raised, a.cleared)] else [])
  }

  function Observed(e: Engine, key: Key): Watch {
    Watch(if key in e.timers then Some(e.timers[key]) else None, key in e.active, SpansOf(e.table, key))
  }

  lemma {:induction false} SpansSame(table: seq<Alarm>, more: seq<Alarm>, key: Key)
    requires |more| == |table|
    requires forall i :: 0 <= i < |table| ==>
                           && more[i].key == table[i].key
                           && (table[i].key == key ==> more[i].raised == table[i].raised && more[i].cleared == table[i].cleared)
    ensures SpansOf(more, key) == SpansOf(table, key)
  {
    if table != [] { SpansSame(table[..|table| - 1], more[..|table| - 1], key); }
  }

  lemma {:induction false} SpansClosed(table: seq<Alarm>, more: seq<Alarm>, key: Key, ts: int)
    requires |more| == |table|
    requires forall i :: 0 <= i < |table| ==>
                           && more[i].key == table[i].key
                           && (table[i].key == key ==>
                                 && more[i].raised == table[i].raised
                                 && more[i].cleared == if table[i].cleared.None? then Some(ts) else table[i].cleared)
    ensures SpansOf(more, key) == Closed(SpansOf(table, key), ts)
  {
    if table != [] {
      SpansClosed(table[..|table| - 1], more[..|table| - 1], key, ts);
    }
  }

  lemma SpansRaised(e: Engine, key: Key, other: Key, at: int)
    ensures SpansOf(RaisedAt(e, key, at).table, other) ==
            SpansOf(e.table, other) + if key == other then [Span(at, None)] else []
  {
    var more := RaisedAt(e, key, at).table;
    assert more[..|more| - 1] == e.table;
  }

  lemma SpansCleared(e: Engine, key: Key, other: Key, at: int)
    requires Consistent(e) && key in e.active
    ensures SpansOf(ClearedAt(e, key, at).table, other) ==
            if key == other then Closed(SpansOf(e.table, key), at) else SpansOf(e.table, other)
  {
    var more := ClearedAt(e, key, at).table;
    OpenRow(e, key);
    OpenNotCleared(e);
    OnlyOpenRow(e, key);
    assert forall i :: 0 <= i < |e.table| ==> e.table[i] in e.table;
    hide Consistent, SpansOf;
    if key == other { SpansClosed(e.table, more, key, at); } else { SpansSame(e.table, more, other); }
  }

  lemma OnlyOpenRow(e: Engine, key: Key)
    requires Consistent(e) && key in e.active
    ensures forall a :: a in e.table && a.key == key && Open(a) ==> a.id == e.active[key]
  {
    forall a | a in e.table && a.key == key && Open(a)
      ensures a.id == e.active[key]
    {
      RaisedIsActive(e, a);
    }
  }

  lemma WatchedKey(e: Engine, key: Key, bad: bool, started: int, now: int, hold: int, ts: int)
    requires Consistent(e)
    ensures Observed(Watched(e, key, bad, started, now, hold, ts), key) ==
            Sampled(Observed(e, key), Reading(ts, bad, started, now), hold)
  {
    hide Consistent, SpansOf;
    if !bad {
      if key in e.active {
        var f := e.(timers := e.timers - {key});
        SameIndex(e, f);
        SpansCleared(f, key, key, ts);
      }
    } else {
      var start := if key in e.timers then e.timers[key] else started;
      SpansRaised(e.(timers := e.timers[key := start]), key, key, start);
    }
  }

  lemma SameIndex(e: Engine, f: Engine)
    requires Consistent(e) && f.table == e.table && f.active == e.active
    ensures Consistent(f)
  {
  }

  lemma WatchedOther(e: Engine, key: Key, bad: bool, started: int, now: int, hold: int, clearing: int, other: Key)
    requires Consistent(e) && other != key
    ensures Observed(Watched(e, key, bad, started, now, hold, clearing), other) == Observed(e, other)
  {
    hide Consistent, SpansOf;
    if !bad {
      if key in e.active {
        var f := e.(timers := e.timers - {key});
        SameIndex(e, f);
        SpansCleared(f, key, other, clearing);
      }
    } else {
      var start := if key in e.timers then e.timers[key] else started;
      SpansRaised(e.(timers := e.timers[key := start]), key, other, start);
    }
  }

  lemma SignalledOther(e: Engine, key: Key, at: int, other: Key)
    requires Consistent(e) && other != key
    ensures Observed(Signalled(e, key, at), other) == Observed(e, other)
  {
    if key in e.active {
      OpenRow(e, key);
      assert forall i :: 0 <= i < |e.table| ==> e.table[i] in e.table;
      SpansSame(e.table, Signalled(e, key, at).table, other);
    } else {
      SpansRaised(e, key, other, at);
    }
  }

  lemma UpdatedSame(table: seq<Alarm>, id: nat, row: Alarm -> Alarm, other: Key)
    requires forall a :: a in table && a.id == id ==>
                           && row(a).key == a.key
                           && (a.key == other ==> row(a).raised == a.raised && row(a).cleared == a.cleared)
    ensures SpansOf(Updated(table, id, row), other) == SpansOf(table, other)
  {
    assert forall i :: 0 <= i < |table| ==> table[i] in table;
    SpansSame(table, Updated(table, id, row), other);
  }

  /** Acknowledging changes nothing about alarms of a condition rule but their status. */
  lemma AckedOther(e: Engine, id: nat, eventRules: set<string>, at: int, other: Key)
    requires Consistent(e) && other.rule !in eventRules
    ensures Observed(AckedAt(e, id, eventRules, at), other) == Observed(e, other)
  {
    hide Get, SpansOf;
    var found := Get(e.table, id);
    if found.Some? && found.value.status == Raised {
      var row := found.value;
      RaisedIsActive(e, row);
      OpenRow(e, row.key);
      if row.key.rule in eventRules {
        WithoutOne(e, row.key);
        hide Consistent, Without;
        UpdatedSame(e.table, id, (a: Alarm) => a.(status := Cleared, acked := Some(at), cleared := Some(at)), other);
      } else {
        hide Consistent;
        UpdatedSame(e.table, id, (a: Alarm) => a.(status := Acked, acked := Some(at)), other);
      }
    }
  }

  // ---------- runs ----------

  function KeyOf(op: Op): Option<Key> {
    match op
    case Check(rule, equip, sub, _, _, _) => Some(Key(rule.id, equip, sub))
    case Event(rule, equip, _) => Some(Key(rule.id, equip, ""))
    case Comm(keyId, equip, _, _, _, _, _) => Some(Key("COMM", equip, keyId))
    case _ => None
  }

  /** Of all the operations that name a key, only checks against a rule with this hold time, or communication checks with
      it, name this one. */
  predicate OnlyChecked(op: Op, key: Key, hold: int) {
    KeyOf(op) == Some(key) ==> (op.Check? && op.rule.hold == hold) || (op.Comm? && op.hold == hold)
  }

  /** What an operation says about its key. */
  function ReadingIn(op: Op): Option<Reading> {
    match op
    case Check(rule, _, _, value, target, ts) => Some(Reading(ts, Deviates(rule, value, target), ts, ts))
    case Comm(_, _, bad, _, ts, started, now) => Some(Reading(ts, bad, started, now))
    case _ => None
  }

  predicate Tells(op: Op, key: Key) {
    KeyOf(op) == Some(key) && ReadingIn(op).Some?
  }

  function ReadingsOf(ops: seq<Op>, key: Key): seq<Reading> {
    if ops == [] then []
    else
      var op := ops[|ops| - 1];
      ReadingsOf(ops[..|ops| - 1], key) + (if Tells(op, key) then [ReadingIn(op).value] else [])
  }

  lemma ApplyObserved(eventRules: set<string>, e: Engine, op: Op, key: Key, hold: int)
    requires Consistent(e) && key.rule !in eventRules && OnlyChecked(op, key, hold) && !op.Purge? && !op.Restart?
    ensures Observed(Apply(eventRules, e, op), key) ==
            if Tells(op, key) then Sampled(Observed(e, key), ReadingIn(op).value, hold) else Observed(e, key)
  {
    hide Consistent, Observed, Watched, Signalled, AckedAt, Deviates, Sampled;
    match op
    case Check(rule, equip, sub, value, target, ts) =>
      var k, dev := Key(rule.id, equip, sub), Deviates(rule, value, target);
      if k == key { WatchedKey(e, k, dev, ts, ts, hold, ts); } else { WatchedOther(e, k, dev, ts, ts, rule.hold, ts, key); }
    case Event(rule, equip, ts) => SignalledOther(e, Key(rule.id, equip, ""), ts, key);
    case Comm(keyId, equip, bad, h, ts, started, now) =>
      var k := Key("COMM", equip, keyId);
      if k == key { WatchedKey(e, k, bad, started, now, hold, ts); } else { WatchedOther(e, k, bad, started, now, h, ts, key); }
    case Ack(id, ts) => AckedOther(e, id, eventRules, ts, key);
  }
}
