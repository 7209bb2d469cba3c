// What each operation of the alarm engine does to the rows of the alarm table, field by field.

module AlarmRows {
  import opened Outcomes
  import opened Sequences
  import opened Alarms
  import opened AlarmRuns

  /** The row is the open one of the key. */
  predicate IsOpenFor(a: Alarm, key: Key) {
    a.key == key && a.status != Cleared
  }

  ghost predicate NoneOpen(table: seq<Alarm>, key: Key) {
    forall n :: 0 <= n < |table| ==> !IsOpenFor(table[n], key)
  }

  /** Only rows of which `p` holds differ. */
  ghost predicate SameBut(table: seq<Alarm>, more: seq<Alarm>, p: Alarm -> bool) {
    |more| == |table| && forall n :: 0 <= n < |table| && !p(table[n]) ==> more[n] == table[n]
  }

  /** One row more: the alarm of the key, raised at this time, under a number not used in the table. */
  ghost predicate OneMore(table: seq<Alarm>, more: seq<Alarm>, key: Key, at: int) {
    && |more| == |table| + 1 && more[..|table|] == table
    && more[|table|] == Alarm(more[|table|].id, key, at, Raised, None, None)
    && forall n :: 0 <= n < |table| ==> table[n].id < more[|table|].id
  }

  // ---------- the index finds the row ----------

  lemma IndexedRow(e: Engine, key: Key, n: nat)
    requires Consistent(e) && n < |e.table|
    ensures key in e.active ==> (e.table[n].id == e.active[key] <==> IsOpenFor(e.table[n], key))
    ensures key !in e.active ==> !IsOpenFor(e.table[n], key)
  {
    assert e.table[n] in e.table;
    if IsOpenFor(e.table[n], key) { RaisedIsActive(e, e.table[n]); }
    if key in e.active { OpenRow(e, key); }
  }

  lemma FreshNumber(e: Engine, n: nat)
    requires Consistent(e) && n < |e.table|
    ensures e.table[n].id < NextId(e.table)
  {
    if n < |e.table| - 1 { assert e.table[n].id < e.table[|e.table| - 1].id; }
  }

  lemma RaiseIsOneMore(e: Engine, key: Key, at: int)
    requires Consistent(e)
    ensures OneMore(e.table, RaisedAt(e, key, at).table, key, at)
  {
    forall n | 0 <= n < |e.table|
      ensures e.table[n].id < NextId(e.table)
    {
      FreshNumber(e, n);
    }
  }

  // ---------- acknowledging ----------

  /** Acknowledging a raised alarm sets the time, and its status: cleared for an event rule, with the same time, and
      acknowledged for any other.  Nothing else changes; an alarm that is absent, acknowledged or cleared
      stays as it is. */
  lemma AckExact(eventRules: set<string>, e: Engine, id: nat, at: int, n: nat)
    requires Consistent(e) && n < |e.table|
    ensures var more, a := Apply(eventRules, e, Ack(id, at)).table, e.table[n];
            && |more| == |e.table|
            && more[n] == if a.id != id || a.status != Raised then a
                          else if a.key.rule in eventRules then Alarm(a.id, a.key, a.raised, Cleared, Some(at), Some(at))
                          else Alarm(a.id, a.key, a.raised, Acked, Some(at), a.cleared)
    ensures (forall m :: 0 <= m < |e.table| ==> e.table[m].id != id || e.table[m].status != Raised) ==>
              Apply(eventRules, e, Ack(id, at)) == e
  {
    var found := Get(e.table, id);
    assert e.table[n] in e.table;
    if found.Some? {
      var m :| 0 <= m < |e.table| && e.table[m] == found.value;
      if e.table[n].id == id { SameIdSameAlarm(e, found.value, e.table[n]); }
    }
    hide Consistent;
  }

  // ---------- events ----------

  /** An event raises the open alarm of its key anew, at the time of the event, or else adds one. */
  lemma EventExact(eventRules: set<string>, e: Engine, rule: Rule, equip: string, ts: int)
    requires Consistent(e)
    ensures var more, key := Apply(eventRules, e, Event(rule, equip, ts)).table, Key(rule.id, equip, "");
            if NoneOpen(e.table, key) then OneMore(e.table, more, key, ts)
            else
              && SameBut(e.table, more, (a: Alarm) => IsOpenFor(a, key))
              && forall n :: 0 <= n < |e.table| && IsOpenFor(e.table[n], key) ==>
                               more[n] == Alarm(e.table[n].id, key, ts, Raised, e.table[n].acked, e.table[n].cleared)
  {
    var key := Key(rule.id, equip, "");
    forall n: nat | n < |e.table|
      ensures key in e.active ==> (e.table[n].id == e.active[key] <==> IsOpenFor(e.table[n], key))
      ensures key !in e.active ==> !IsOpenFor(e.table[n], key)
    {
      IndexedRow(e, key, n);
    }
    if key in e.active { HasOpenOne(e, key); } else { RaiseIsOneMore(e, key, ts); }
    hide Consistent, NextId;
  }

  lemma HasOpenOne(e: Engine, key: Key)
    requires Consistent(e) && key in e.active
    ensures !NoneOpen(e.table, key)
  {
    assert HasOpen(e.table, key, e.active[key]);
    var n :| 0 <= n < |e.table| && Open(e.table[n]) && e.table[n].key == key && e.table[n].id == e.active[key];
    assert IsOpenFor(e.table[n], key);
  }

  // ---------- checks and communication ----------

  /** When the deviation of the key began: when its timer was started, or now. */
  function Began(e: Engine, key: Key, r: Reading): int {
    if key in e.timers then e.timers[key] else r.started
  }

  /** What an operation that tells something about a key does: a good reading drops the timer and closes the open alarm;
      a bad one keeps or starts the timer and, once the hold time is over, adds an alarm from the
      beginning of the deviation, unless one is open. */
  ghost predicate Timed(e: Engine, f: Engine, key: Key, r: Reading, hold: int) {
    if !r.dev then
      && f.timers == e.timers - {key}
      && SameBut(e.table, f.table, (a: Alarm) => IsOpenFor(a, key))
      && forall n :: 0 <= n < |e.table| && IsOpenFor(e.table[n], key) ==>
                       f.table[n] == Alarm(e.table[n].id, key, e.table[n].raised, Cleared, e.table[n].acked, Some(r.ts))
    else
      && f.timers == e.timers[key := Began(e, key, r)]
      && if NoneOpen(e.table, key) && r.now - Began(e, key, r) >= hold then OneMore(e.table, f.table, key, Began(e, key, r))
         else f.table == e.table
  }

  lemma TimedExact(e: Engine, key: Key, r: Reading, hold: int)
    requires Consistent(e)
    ensures Timed(e, Watched(e, key, r.dev, r.started, r.now, hold, r.ts), key, r, hold)
  {
    forall n: nat | n < |e.table|
      ensures key in e.active ==> (e.table[n].id == e.active[key] <==> IsOpenFor(e.table[n], key))
      ensures key !in e.active ==> !IsOpenFor(e.table[n], key)
    {
      IndexedRow(e, key, n);
    }
    if key in e.active { HasOpenOne(e, key); }
    if r.dev { StartedRaise(e, key, Began(e, key, r)); }
    hide Consistent, NextId, OneMore;
  }

  lemma StartedRaise(e: Engine, key: Key, at: int)
    requires Consistent(e)
    ensures OneMore(e.table, RaisedAt(e.(timers := e.timers[key := at]), key, at).table, key, at)
  {
    RaiseIsOneMore(e, key, at);
  }

  /** A check of a value, whose deviation `Deviates` tells. */
  lemma CheckExact(eventRules: set<string>, e: Engine, rule: Rule, equip: string, sub: string, value: real,
                   target: Option<real>, ts: int)
    requires Consistent(e)
    ensures Timed(e, Apply(eventRules, e, Check(rule, equip, sub, value, target, ts)), Key(rule.id, equip, sub),
                  Reading(ts, Deviates(rule, value, target), ts, ts), rule.hold)
  {
    hide Deviates, Watched, Timed, Consistent;
    TimedExact(e, Key(rule.id, equip, sub), Reading(ts, Deviates(rule, value, target), ts, ts), rule.hold);
  }

  /** A check of the communication: the timer starts with the second reading of the clock, is compared with the third, and
      the alarm is closed with the first. */
  lemma CommExact(eventRules: set<string>, e: Engine, keyId: string, equip: string, bad: bool, hold: int, ts: int,
                  started: int, now: int)
    requires Consistent(e)
    ensures Timed(e, Apply(eventRules, e, Comm(keyId, equip, bad, hold, ts, started, now)), Key("COMM", equip, keyId),
                  Reading(ts, bad, started, now), hold)
  {
    hide Watched, Timed, Consistent;
    TimedExact(e, Key("COMM", equip, keyId), Reading(ts, bad, started, now), hold);
  }

  // ---------- event alarms over a run ----------

  /** When the last event of the key came. */
  function LastEvent(ops: seq<Op>, key: Key): Option<int> {
    if ops == [] then None
    else
      var op := ops[|ops| - 1];
      if op.Event? && KeyOf(op) == Some(key) then Some(op.ts) else LastEvent(ops[..|ops| - 1], key)
  }

  /** The open alarm of an event key stands as raised by its last event. */
  ghost predicate AsOfLastEvent(table: seq<Alarm>, key: Key, last: Option<int>) {
    forall n :: 0 <= n < |table| && IsOpenFor(table[n], key) ==> table[n].status == Raised && last == Some(table[n].raised)
  }

  lemma EventAlarmStep(eventRules: set<string>, e: Engine, op: Op, key: Key, last: Option<int>)
    requires Consistent(e) && key.rule in eventRules && (KeyOf(op) == Some(key) ==> op.Event?)
    requires AsOfLastEvent(e.table, key, last)
    ensures AsOfLastEvent(Apply(eventRules, e, op).table, key, if op.Event? && KeyOf(op) == Some(key) then Some(op.ts) else last)
  {
    hide Consistent, Deviates, Watched, Signalled, AckedAt, Filter, Timed, Rebuilt;
    match op
    case Check(rule, equip, sub, value, target, ts) =>
      CheckExact(eventRules, e, rule, equip, sub, value, target, ts);
      OtherTimed(e, Apply(eventRules, e, op), Key(rule.id, equip, sub), Reading(ts, Deviates(rule, value, target), ts, ts),
                 rule.hold, key, last);
    case Comm(keyId, equip, bad, hold, ts, started, now) =>
      CommExact(eventRules, e, keyId, equip, bad, hold, ts, started, now);
      OtherTimed(e, Apply(eventRules, e, op), Key("COMM", equip, keyId), Reading(ts, bad, started, now), hold, key, last);
    case Event(rule, equip, ts) =>
      EventExact(eventRules, e, rule, equip, ts);
      SignalledTable(e.table, Apply(eventRules, e, op).table, Key(rule.id, equip, ""), ts, key, last);
    case Ack(id, ts) => AckedEvents(eventRules, e, id, ts, key, last);
    case Purge(cutoff) => PurgedEvents(e.table, cutoff, key, last);
    case Restart =>
  }

  lemma OtherTimed(e: Engine, f: Engine, k: Key, r: Reading, hold: int, key: Key, last: Option<int>)
    requires Timed(e, f, k, r, hold) && k != key && AsOfLastEvent(e.table, key, last)
    ensures AsOfLastEvent(f.table, key, last)
  {
    forall n | 0 <= n < |f.table| && IsOpenFor(f.table[n], key)
      ensures n < |e.table| && f.table[n] == e.table[n]
    {
      if n < |e.table| && !r.dev { assert !IsOpenFor(e.table[n], k) ==> f.table[n] == e.table[n]; }
      if n < |e.table| { assert f.table[..|e.table|][n] == f.table[n]; }
    }
  }

  lemma SignalledTable(table: seq<Alarm>, more: seq<Alarm>, k: Key, ts: int, key: Key, last: Option<int>)
    requires AsOfLastEvent(table, key, last)
    requires if NoneOpen(table, k) then OneMore(table, more, k, ts)
             else
               && SameBut(table, more, (a: Alarm) => IsOpenFor(a, k))
               && forall n :: 0 <= n < |table| && IsOpenFor(table[n], k) ==>
                                more[n] == Alarm(table[n].id, k, ts, Raised, table[n].acked, table[n].cleared)
    ensures AsOfLastEvent(more, key, if k == key then Some(ts) else last)
  {
    forall n | 0 <= n < |more| && IsOpenFor(more[n], key)
      ensures more[n].status == Raised && (if k == key then Some(ts) else last) == Some(more[n].raised)
    {
      if NoneOpen(table, k) {
        if n < |table| { assert more[..|table|][n] == table[n]; }
      } else {
        assert !IsOpenFor(table[n], k) ==> more[n] == table[n];
      }
    }
  }

  lemma AckedEvents(eventRules: set<string>, e: Engine, id: nat, ts: int, key: Key, last: Option<int>)
    requires Consistent(e) && key.rule in eventRules && AsOfLastEvent(e.table, key, last)
    ensures AsOfLastEvent(Apply(eventRules, e, Ack(id, ts)).table, key, last)
  {
    hide Consistent, AckedAt;
    var more := Apply(eventRules, e, Ack(id, ts)).table;
    if e.table == [] {
      AckNothing(eventRules, e, id, ts);
    } else {
      AckExact(eventRules, e, id, ts, 0);
      forall n | 0 <= n < |more| && IsOpenFor(more[n], key)
        ensures more[n] == e.table[n]
      {
        AckExact(eventRules, e, id, ts, n);
      }
    }
  }

  lemma AckNothing(eventRules: set<string>, e: Engine, id: nat, ts: int)
    requires e.table == []
    ensures Apply(eventRules, e, Ack(id, ts)).table == []
  {
  }

  lemma PurgedEvents(table: seq<Alarm>, cutoff: int, key: Key, last: Option<int>)
    requires AsOfLastEvent(table, key, last)
    ensures AsOfLastEvent(Filter(table, (a: Alarm) => !Expired(a, cutoff)), key, last)
  {
    var kept := Filter(table, (a: Alarm) => !Expired(a, cutoff));
    forall n | 0 <= n < |kept| && IsOpenFor(kept[n], key)
      ensures kept[n].status == Raised && last == Some(kept[n].raised)
    {
      assert kept[n] in kept && kept[n] in table;
      var m :| 0 <= m < |table| && table[m] == kept[n];
    }
  }

  /** Over any run, restarts and purges included: the open alarm of an event rule is unacknowledged and stands as raised by
      the last event of its key. */
  lemma {:induction false} EventAlarmsAreAsLast(eventRules: set<string>, ops: seq<Op>, key: Key)
    requires key.rule in eventRules && forall op :: op in ops && KeyOf(op) == Some(key) ==> op.Event?
    ensures AsOfLastEvent(Run(eventRules, ops).table, key, LastEvent(ops, key))
  {
    hide Apply, Consistent;
    if ops != [] {
      var n := |ops| - 1;
      assert ops[n] in ops && forall op :: op in ops[..n] ==> op in ops;
      EventAlarmsAreAsLast(eventRules, ops[..n], key);
      IndexAlwaysTheTable(eventRules, ops[..n]);
      hide AsOfLastEvent, KeyOf, Open, Rebuilt;
      EventAlarmStep(eventRules, Run(eventRules, ops[..n]), ops[n], key, LastEvent(ops[..n], key));
    }
  }
}
