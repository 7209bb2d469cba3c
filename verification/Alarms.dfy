// The alarm engine: hold timers, the table of alarms, and the in-memory index from alarm key to the
// row that is open for it.

module Alarms {
  import opened Outcomes
  import opened Sequences

  /** A CCP rule.  Times are in milliseconds. */
  datatype Rule = Rule(id: string, low: Option<real>, high: Option<real>, band: Option<real>, bandPct: Option<real>,
                       std: Option<real>, ngImmediate: bool, hold: int)

  datatype Key = Key(rule: string, equip: string, sub: string)

  datatype Status = Raised | Acked | Cleared

  /** A row of the alarm table. */
  datatype Alarm = Alarm(id: nat, key: Key, raised: int, status: Status, acked: Option<int>, cleared: Option<int>)

  datatype Engine = Engine(timers: map<Key, int>, active: map<Key, nat>, table: seq<Alarm>)

  function Abs(x: real): real {
    if x < 0.0 then -x else x
  }

  function Deviates(r: Rule, value: real, target: Option<real>): bool {
    if r.low.Some? && value < r.low.value then true
    else if r.high.Some? && value > r.high.value then true
    else if r.band.Some? && target.Some? && Abs(value - target.value) > r.band.value then true
    else if r.bandPct.Some? && r.std.Some? && r.std.value != 0.0 then
      Abs(value - r.std.value) / r.std.value * 100.0 > r.bandPct.value
    else false
  }

  lemma PercentOf(d: real, std: real, pct: real)
    requires std != 0.0
    ensures d / std * 100.0 > pct <==> if std > 0.0 then d > std * pct / 100.0 else d < std * pct / 100.0
  {
    var q := d / std;
    assert q * std == d;
    var gap := q - pct / 100.0;
    assert gap * std == d - std * pct / 100.0;
    assert std > 0.0 ==> (gap > 0.0 <==> gap * std > 0.0);
    assert std < 0.0 ==> (gap > 0.0 <==> gap * std < 0.0);
  }

  /** A standard of 0 counts as none; a negative one turns the percentage around, so that values near the standard
      are outside, and only for a negative percentage. */
  predicate OutsidePercent(value: real, std: real, pct: real) {
    var width := std * pct / 100.0;
    if std > 0.0 then value < std - width || value > std + width
    else std < 0.0 && std - width < value < std + width
  }

  lemma PercentDeviates(value: real, std: real, pct: real)
    requires std != 0.0
    ensures Abs(value - std) / std * 100.0 > pct <==> OutsidePercent(value, std, pct)
  {
    PercentOf(Abs(value - std), std, pct);
  }

  /** A value deviates exactly when it is outside one of the bands the rule sets: absolute limits, a band
      around the target, or a percentage around the standard. */
  lemma DeviatesOutsideTheBands(r: Rule, value: real, target: Option<real>)
    ensures Deviates(r, value, target) <==>
            || (r.low.Some? && value < r.low.value)
            || (r.high.Some? && value > r.high.value)
            || (r.band.Some? && target.Some? && (value < target.value - r.band.value || value > target.value + r.band.value))
            || (r.bandPct.Some? && r.std.Some? && OutsidePercent(value, r.std.value, r.bandPct.value))
  {
    if r.bandPct.Some? && r.std.Some? {
      if r.std.value != 0.0 { PercentDeviates(value, r.std.value, r.bandPct.value); } else { ZeroStandard(value, r.bandPct.value); }
    }
    hide OutsidePercent;
  }

  lemma ZeroStandard(value: real, pct: real)
    ensures !OutsidePercent(value, 0.0, pct)
  {
  }

  /** Alarms of these rules are single events: acknowledging one closes it. */
  predicate IsEvent(r: Rule) {
    r.ngImmediate || r.bandPct.Some?
  }

  // ---------- rows ----------

  predicate Open(a: Alarm) {
    a.status != Cleared
  }

  /** An INTEGER PRIMARY KEY takes the number after the largest present. */
  function NextId(table: seq<Alarm>): nat {
    if table == [] then 1 else table[|table| - 1].id + 1
  }

  function Updated(table: seq<Alarm>, id: nat, row: Alarm -> Alarm): (r: seq<Alarm>)
    ensures |r| == |table|
    ensures forall i :: 0 <= i < |table| ==> r[i] == if table[i].id == id then row(table[i]) else table[i]
  {
    seq(|table|, i requires 0 <= i < |table| => if table[i].id == id then row(table[i]) else table[i])
  }

  function Get(table: seq<Alarm>, id: nat): (r: Option<Alarm>)
    ensures r.Some? ==> r.value in table && r.value.id == id
    ensures r.None? ==> forall a :: a in table ==> a.id != id
  {
    if table == [] then None
    else if table[0].id == id then Some(table[0])
    else
      assert forall a :: a in table ==> a == table[0] || a in table[1..];
      Get(table[1..], id)
  }

  /** The index a restart reads from the table. */
  function Rebuilt(table: seq<Alarm>): map<Key, nat> {
    if table == [] then map[]
    else
      var a := table[|table| - 1];
      var m := Rebuilt(table[..|table| - 1]);
      if Open(a) then m[a.key := a.id] else m
  }

  // ---------- what the operations do ----------

  function RaisedAt(e: Engine, key: Key, at: int): Engine {
    e.(table := e.table + [Alarm(NextId(e.table), key, at, Raised, None, None)], active := e.active[key := NextId(e.table)])
  }

  function ClearedAt(e: Engine, key: Key, at: int): Engine
    requires key in e.active
  {
    e.(table := Updated(e.table, e.active[key], (a: Alarm) => a.(status := Cleared, cleared := Some(at))),
       active := e.active - {key})
  }

  /** `check` and `comm`: time the deviation, raise once it has lasted, clear when it ends. */
  function Watched(e: Engine, key: Key, bad: bool, started: int, now: int, hold: int, clearing: int): Engine {
    if !bad then
      var f := e.(timers := e.timers - {key});
      if key in e.active then ClearedAt(f, key, clearing) else f
    else
      var start := if key in e.timers then e.timers[key] else started;
      var f := e.(timers := e.timers[key := start]);
      if key in e.active || now - start < hold then f else RaisedAt(f, key, start)
  }

  function Signalled(e: Engine, key: Key, at: int): Engine {
    if key in e.active then
      e.(table := Updated(e.table, e.active[key], (a: Alarm) => a.(raised := at, status := Raised)))
    else RaisedAt(e, key, at)
  }

  function Without(active: map<Key, nat>, id: nat): map<Key, nat> {
    map k | k in active && active[k] != id :: active[k]
  }

  function AckedAt(e: Engine, id: nat, eventRules: set<string>, at: int): Engine {
    match Get(e.table, id)
    case None => e
    case Some(row) =>
      if row.status != Raised then e
      else if row.key.rule in eventRules then
        e.(table := Updated(e.table, id, (a: Alarm) => a.(status := Cleared, acked := Some(at), cleared := Some(at))),
           active := Without(e.active, id))
      else e.(table := Updated(e.table, id, (a: Alarm) => a.(status := Acked, acked := Some(at))))
  }

  predicate Expired(a: Alarm, cutoff: int) {
    a.status == Cleared && a.cleared.Some? && a.cleared.value < cutoff
  }

  function Purged(e: Engine, cutoff: int): Engine {
    e.(table := Filter(e.table, (a: Alarm) => !Expired(a, cutoff)))
  }

  function Restarted(e: Engine): Engine {
    Engine(map[], Rebuilt(e.table), e.table)
  }

  // ---------- the engine as an object ----------

  class AlarmEngine {
    const rules: map<string, Rule>
    var timers: map<Key, int>
    var active: map<Key, nat>
    var table: seq<Alarm>

    function State(): Engine
      reads this
    {
      Engine(timers, active, table)
    }

    function EventRules(): (ids: set<string>)
      ensures forall id :: id in ids <==> id in rules && (rules[id].ngImmediate || rules[id].bandPct.Some?)
    {
      set id | id in rules && IsEvent(rules[id])
    }

    /** Starts on the table as the last run left it. */
    constructor (rules: map<string, Rule>, stored: seq<Alarm>)
      ensures this.rules == rules && table == stored && timers == map[] && active == Rebuilt(stored)
    {
      this.rules, timers, table := rules, map[], stored;
      var found: map<Key, nat> := map[];
      for i := 0 to |stored|
        invariant found == Rebuilt(stored[..i])
      {
        assert stored[..i + 1][..i] == stored[..i];
        if stored[i].status == Raised || stored[i].status == Acked {
          found := found[stored[i].key := stored[i].id];
        }
      }
      assert stored[..|stored|] == stored;
      active := found;
    }

    method Check(rule: Rule, equip: string, value: real, ts: int, sub: string, target: Option<real>)
      returns (dev: bool, raised: Option<nat>)
      modifies this
      ensures dev == Deviates(rule, value, target)
      ensures State() == Watched(old(State()), Key(rule.id, equip, sub), dev, ts, ts, rule.hold, ts)
      ensures raised == if |table| == |old(table)| then None else Some(NextId(old(table)))
    {
      var key := Key(rule.id, equip, sub);
      dev := Deviates(rule, value, target);
      if !dev {
        timers := timers - {key};
        if key in active { Clear(key, ts); }
        return dev, None;
      }
      if key !in timers { timers := timers[key := ts]; }
      var start := timers[key];
      if key in active || ts - start < rule.hold { return dev, None; }
      var id := Raise(key, start);
      raised := Some(id);
    }

    method Event(rule: Rule, equip: string, ts: int) returns (id: nat)
      modifies this
      ensures State() == Signalled(old(State()), Key(rule.id, equip, ""), ts)
      ensures Key(rule.id, equip, "") in active && id == active[Key(rule.id, equip, "")]
    {
      var key := Key(rule.id, equip, "");
      if key in active {
        id := active[key];
        table := Updated(table, id, (a: Alarm) => a.(raised := ts, status := Raised));
      } else {
        id := Raise(key, ts);
      }
    }

    /** The clock is read for the time stamp, for a new timer, and for the comparison. */
    method Comm(keyId: string, equip: string, bad: bool, hold: int, ts: int, started: int, now: int)
      modifies this
      ensures State() == Watched(old(State()), Key("COMM", equip, keyId), bad, started, now, hold, ts)
    {
      var key := Key("COMM", equip, keyId);
      if !bad {
        timers := timers - {key};
        if key in active { Clear(key, ts); }
        return;
      }
      if key !in timers { timers := timers[key := started]; }
      if key !in active && now - timers[key] >= hold {
        var id := Raise(key, timers[key]);
      }
    }

    method Ack(id: nat, ts: int) returns (row: Option<Alarm>)
      modifies this
      ensures State() == AckedAt(old(State()), id, EventRules(), ts)
      ensures row == Get(table, id)
    {
      var found := Get(table, id);
      if found.None? { return None; }
      var isEvent := found.value.key.rule in rules && IsEvent(rules[found.value.key.rule]);
      if found.value.status == Raised {
        if isEvent {
          table := Updated(table, id, (a: Alarm) => a.(status := Cleared, acked := Some(ts), cleared := Some(ts)));
          active := Without(active, id);
        } else {
          table := Updated(table, id, (a: Alarm) => a.(status := Acked, acked := Some(ts)));
        }
      }
      row := Get(table, id);
    }

    method Raise(key: Key, at: int) returns (id: nat)
      modifies this
      ensures State() == RaisedAt(old(State()), key, at) && id == NextId(old(table))
    {
      id := NextId(table);
      table := table + [Alarm(id, key, at, Raised, None, None)];
      active := active[key := id];
    }

    method Clear(key: Key, at: int)
      requires key in active
      modifies this
      ensures State() == ClearedAt(old(State()), key, at)
    {
      var id := active[key];
      active := active - {key};
      table := Updated(table, id, (a: Alarm) => a.(status := Cleared, cleared := Some(at)));
    }

    /** The alarm step of the daily purge; the engine is not told. */
    method PurgeTable(cutoff: int)
      modifies this
      ensures State() == Purged(old(State()), cutoff)
    {
      table := Filter(table, (a: Alarm) => !Expired(a, cutoff));
    }
  }

  // ---------- the index is the table ----------

  ghost predicate TableOk(table: seq<Alarm>) {
    && (forall i, j :: 0 <= i < j < |table| ==> table[i].id < table[j].id)
    && (forall i, j :: 0 <= i < j < |table| && table[i].key == table[j].key ==> table[i].status == Cleared)
    && (forall i :: 0 <= i < |table| ==> (table[i].status == Cleared <==> table[i].cleared.Some?))
  }

  ghost predicate HasOpen(table: seq<Alarm>, key: Key, id: nat) {
    exists i :: 0 <= i < |table| && Open(table[i]) && table[i].key == key && table[i].id == id
  }

  /** The index holds exactly the open rows. */
  ghost predicate IndexOk(active: map<Key, nat>, table: seq<Alarm>) {
    && (forall k :: k in active ==> HasOpen(table, k, active[k]))
    && (forall i :: 0 <= i < |table| && Open(table[i]) ==> table[i].key in active && active[table[i].key] == table[i].id)
  }

  ghost predicate Consistent(e: Engine) {
    TableOk(e.table) && IndexOk(e.active, e.table)
  }

  lemma HasOpenMore(table: seq<Alarm>, n: nat, k: Key, id: nat)
    requires n <= |table| && HasOpen(table[..n], k, id)
    ensures HasOpen(table, k, id)
  {
    var i :| 0 <= i < n && Open(table[..n][i]) && table[..n][i].key == k && table[..n][i].id == id;
    assert Open(table[i]) && table[i].key == k && table[i].id == id;
  }

  lemma IndexSnoc(m: map<Key, nat>, table: seq<Alarm>)
    requires table != [] && TableOk(table) && IndexOk(m, table[..|table| - 1])
    ensures var a := table[|table| - 1]; IndexOk(if Open(a) then m[a.key := a.id] else m, table)
  {
    var n := |table| - 1;
    var a, before := table[n], table[..n];
    var index := if Open(a) then m[a.key := a.id] else m;
    forall k | k in index
      ensures HasOpen(table, k, index[k])
    {
      if Open(a) && k == a.key {
        assert table[n].key == k;
      } else {
        HasOpenMore(table, n, k, m[k]);
      }
    }
    hide HasOpen;
    forall i | 0 <= i < |table| && Open(table[i])
      ensures table[i].key in index && index[table[i].key] == table[i].id
    {
      if i < n { assert before[i] == table[i]; }
    }
  }

  lemma {:induction false} RebuiltIndex(table: seq<Alarm>)
    requires TableOk(table)
    ensures IndexOk(Rebuilt(table), table)
  {
    if table != [] {
      var n := |table| - 1;
      assert TableOk(table[..n]);
      RebuiltIndex(table[..n]);
      hide TableOk, IndexOk;
      IndexSnoc(Rebuilt(table[..n]), table);
    }
  }

  lemma IndexUnique(a: map<Key, nat>, b: map<Key, nat>, table: seq<Alarm>)
    requires IndexOk(a, table) && IndexOk(b, table)
    ensures a == b
  {
    forall k | k in a
      ensures k in b && b[k] == a[k]
    {
      assert HasOpen(table, k, a[k]);
    }
    forall k | k in b
      ensures k in a
    {
      assert HasOpen(table, k, b[k]);
    }
  }

  /** A restart would read exactly the index the engine has in memory; the index is injective, and no key
      has two open alarms. */
  lemma IndexIsTheTable(e: Engine)
    requires Consistent(e)
    ensures e.active == Rebuilt(e.table)
    ensures forall k, l :: k in e.active && l in e.active && e.active[k] == e.active[l] ==> k == l
    ensures forall a, b :: a in e.table && b in e.table && Open(a) && Open(b) && a.key == b.key ==> a == b
  {
    RebuiltIndex(e.table);
    IndexUnique(e.active, Rebuilt(e.table), e.table);
    hide Rebuilt;
    forall k, l | k in e.active && l in e.active && e.active[k] == e.active[l]
      ensures k == l
    {
      assert HasOpen(e.table, k, e.active[k]) && HasOpen(e.table, l, e.active[l]);
    }
  }

  // ---------- every operation keeps it ----------

  lemma RaiseKeepsTable(active: map<Key, nat>, table: seq<Alarm>, key: Key, at: int)
    requires TableOk(table) && IndexOk(active, table) && key !in active
    ensures TableOk(table + [Alarm(NextId(table), key, at, Raised, None, None)])
  {
  }

  lemma RaiseKeeps(e: Engine, key: Key, at: int)
    requires Consistent(e) && key !in e.active
    ensures Consistent(RaisedAt(e, key, at))
  {
    RaiseKeepsTable(e.active, e.table, key, at);
    hide TableOk;
    var f, n := RaisedAt(e, key, at), |e.table|;
    forall k | k in f.active
      ensures HasOpen(f.table, k, f.active[k])
    {
      if k == key {
        assert f.table[n].key == key;
      } else {
        assert HasOpen(e.table, k, e.active[k]);
        var i :| 0 <= i < n && Open(e.table[i]) && e.table[i].key == k && e.table[i].id == e.active[k];
        assert f.table[i] == e.table[i];
      }
    }
  }

  /** `more` is the table with the open row `id` changed, or closed, and nothing else. */
  ghost predicate Patch(table: seq<Alarm>, more: seq<Alarm>, id: nat, closing: bool) {
    && |more| == |table|
    && (forall i :: 0 <= i < |table| && table[i].id != id ==> more[i] == table[i])
    && (forall i :: 0 <= i < |table| && table[i].id == id ==>
          && Open(table[i]) && more[i].id == id && more[i].key == table[i].key
          && (more[i].status == Cleared <==> closing) && (more[i].cleared.Some? <==> closing))
  }

  lemma PatchKeepsTable(table: seq<Alarm>, more: seq<Alarm>, id: nat, closing: bool)
    requires TableOk(table) && Patch(table, more, id, closing)
    ensures TableOk(more)
  {
    forall i | 0 <= i < |table|
      ensures more[i].id == table[i].id && more[i].key == table[i].key
      ensures table[i].status == Cleared ==> more[i] == table[i]
    {
    }
  }

  lemma ChangeKeepsIndex(active: map<Key, nat>, table: seq<Alarm>, more: seq<Alarm>, id: nat)
    requires IndexOk(active, table) && Patch(table, more, id, false)
    ensures IndexOk(active, more)
  {
    forall k | k in active
      ensures HasOpen(more, k, active[k])
    {
      assert HasOpen(table, k, active[k]);
      var i :| 0 <= i < |table| && Open(table[i]) && table[i].key == k && table[i].id == active[k];
      assert more[i].key == k;
    }
    forall i | 0 <= i < |more| && Open(more[i])
      ensures more[i].key in active && active[more[i].key] == more[i].id
    {
      assert Open(table[i]);
    }
  }

  lemma CloseKeepsIndex(active: map<Key, nat>, table: seq<Alarm>, more: seq<Alarm>, key: Key)
    requires TableOk(table) && IndexOk(active, table) && key in active && Patch(table, more, active[key], true)
    ensures IndexOk(active - {key}, more)
  {
    var id := active[key];
    assert HasOpen(table, key, id);
    var n :| 0 <= n < |table| && Open(table[n]) && table[n].key == key && table[n].id == id;
    forall k | k in active - {key}
      ensures HasOpen(more, k, active[k])
    {
      assert HasOpen(table, k, active[k]);
      var i :| 0 <= i < |table| && Open(table[i]) && table[i].key == k && table[i].id == active[k];
      assert i != n && more[i] == table[i];
    }
    forall i | 0 <= i < |more| && Open(more[i])
      ensures more[i].key in active - {key} && (active - {key})[more[i].key] == more[i].id
    {
      assert more[i] == table[i];
    }
  }

  lemma OpenRow(e: Engine, key: Key)
    requires Consistent(e) && key in e.active
    ensures forall a :: a in e.table && a.id == e.active[key] ==> Open(a) && a.key == key
  {
    assert HasOpen(e.table, key, e.active[key]);
    var n :| 0 <= n < |e.table| && Open(e.table[n]) && e.table[n].key == key && e.table[n].id == e.active[key];
    forall a | a in e.table && a.id == e.active[key]
      ensures a == e.table[n]
    {
      var i :| 0 <= i < |e.table| && e.table[i] == a;
    }
  }

  lemma ClearKeeps(e: Engine, key: Key, at: int)
    requires Consistent(e) && key in e.active
    ensures Consistent(ClearedAt(e, key, at))
  {
    var more := ClearedAt(e, key, at).table;
    OpenRow(e, key);
    assert Patch(e.table, more, e.active[key], true) by {
      assert forall i :: 0 <= i < |e.table| ==> e.table[i] in e.table;
    }
    PatchKeepsTable(e.table, more, e.active[key], true);
    CloseKeepsIndex(e.active, e.table, more, key);
  }

  lemma WatchKeeps(e: Engine, key: Key, bad: bool, started: int, now: int, hold: int, clearing: int)
    requires Consistent(e)
    ensures Consistent(Watched(e, key, bad, started, now, hold, clearing))
  {
    hide TableOk, IndexOk;
    if !bad {
      if key in e.active { ClearKeeps(e.(timers := e.timers - {key}), key, clearing); }
    } else {
      var start := if key in e.timers then e.timers[key] else started;
      if !(key in e.active || now - start < hold) { RaiseKeeps(e.(timers := e.timers[key := start]), key, start); }
    }
  }

  lemma SignalKeeps(e: Engine, key: Key, at: int)
    requires Consistent(e)
    ensures Consistent(Signalled(e, key, at))
  {
    if key in e.active {
      var more := Signalled(e, key, at).table;
      OpenRow(e, key);
      assert Patch(e.table, more, e.active[key], false) by {
        assert forall i :: 0 <= i < |e.table| ==> e.table[i] in e.table;
        assert TableOk(e.table);
      }
      PatchKeepsTable(e.table, more, e.active[key], false);
      ChangeKeepsIndex(e.active, e.table, more, e.active[key]);
    } else {
      RaiseKeeps(e, key, at);
    }
  }

  lemma RaisedIsActive(e: Engine, row: Alarm)
    requires Consistent(e) && row in e.table && Open(row)
    ensures row.key in e.active && e.active[row.key] == row.id
  {
    var n :| 0 <= n < |e.table| && e.table[n] == row;
  }

  lemma UpdatePatches(e: Engine, key: Key, row: Alarm -> Alarm, closing: bool)
    requires Consistent(e) && key in e.active
    requires forall a :: a in e.table && Open(a) ==>
                           && row(a).id == a.id && row(a).key == a.key && (row(a).status == Cleared <==> closing)
                           && (row(a).cleared.Some? <==> closing)
    ensures Patch(e.table, Updated(e.table, e.active[key], row), e.active[key], closing)
  {
    OpenRow(e, key);
    hide Consistent;
    assert forall i :: 0 <= i < |e.table| ==> e.table[i] in e.table;
  }

  lemma AckPatch(e: Engine, id: nat, eventRules: set<string>, at: int)
    requires Consistent(e) && Get(e.table, id).Some? && Get(e.table, id).value.status == Raised
    ensures var row := Get(e.table, id).value;
            && row.key in e.active && e.active[row.key] == id
            && Patch(e.table, AckedAt(e, id, eventRules, at).table, id, row.key.rule in eventRules)
  {
    var row := Get(e.table, id).value;
    hide Get, Patch;
    RaisedIsActive(e, row);
    OpenNotCleared(e);
    hide Consistent;
    if row.key.rule in eventRules {
      UpdatePatches(e, row.key, (a: Alarm) => a.(status := Cleared, acked := Some(at), cleared := Some(at)), true);
    } else {
      UpdatePatches(e, row.key, (a: Alarm) => a.(status := Acked, acked := Some(at)), false);
    }
  }

  lemma OpenNotCleared(e: Engine)
    requires Consistent(e)
    ensures forall a :: a in e.table ==> (Open(a) <==> a.cleared.None?)
  {
  }

  lemma WithoutOne(e: Engine, key: Key)
    requires Consistent(e) && key in e.active
    ensures Without(e.active, e.active[key]) == e.active - {key}
  {
    IndexIsTheTable(e);
  }

  lemma AckKeeps(e: Engine, id: nat, eventRules: set<string>, at: int)
    requires Consistent(e)
    ensures Consistent(AckedAt(e, id, eventRules, at))
  {
    hide TableOk, IndexOk, Get, Patch, Without;
    var found := Get(e.table, id);
    if found.Some? && found.value.status == Raised {
      var row, f := found.value, AckedAt(e, id, eventRules, at);
      AckPatch(e, id, eventRules, at);
      PatchKeepsTable(e.table, f.table, id, row.key.rule in eventRules);
      if row.key.rule in eventRules {
        CloseKeepsIndex(e.active, e.table, f.table, row.key);
        WithoutOne(e, row.key);
      } else {
        ChangeKeepsIndex(e.active, e.table, f.table, id);
      }
    }
  }

  lemma PurgeKeepsTable(table: seq<Alarm>, cutoff: int)
    requires TableOk(table)
    ensures TableOk(Filter(table, (a: Alarm) => !Expired(a, cutoff)))
  {
    var keep := (a: Alarm) => !Expired(a, cutoff);
    var kept := Filter(table, keep);
    FilterKeepsOrder(table, keep, (a: Alarm, b: Alarm) => a.id < b.id && (a.key == b.key ==> a.status == Cleared));
    assert forall i :: 0 <= i < |kept| ==> kept[i] in kept;
  }

  lemma PurgeKeepsOpen(table: seq<Alarm>, cutoff: int, k: Key, id: nat)
    requires HasOpen(table, k, id)
    ensures HasOpen(Filter(table, (a: Alarm) => !Expired(a, cutoff)), k, id)
  {
    var kept := Filter(table, (a: Alarm) => !Expired(a, cutoff));
    var i :| 0 <= i < |table| && Open(table[i]) && table[i].key == k && table[i].id == id;
    assert table[i] in kept;
    var j :| 0 <= j < |kept| && kept[j] == table[i];
  }

  lemma PurgeKeeps(e: Engine, cutoff: int)
    requires Consistent(e)
    ensures Consistent(Purged(e, cutoff))
  {
    hide TableOk, HasOpen;
    var kept := Purged(e, cutoff).table;
    PurgeKeepsTable(e.table, cutoff);
    forall k | k in e.active
      ensures HasOpen(kept, k, e.active[k])
    {
      PurgeKeepsOpen(e.table, cutoff, k, e.active[k]);
    }
    forall i | 0 <= i < |kept| && Open(kept[i])
      ensures kept[i].key in e.active && e.active[kept[i].key] == kept[i].id
    {
      assert kept[i] in kept && kept[i] in e.table;
    }
  }

  // ---------- runs ----------

  datatype Op =
    | Check(rule: Rule, equip: string, sub: string, value: real, target: Option<real>, ts: int)
    | Event(rule: Rule, equip: string, ts: int)
    | Comm(keyId: string, equip: string, bad: bool, hold: int, ts: int, started: int, now: int)
    | Ack(id: nat, ts: int)
    | Purge(cutoff: int)
    | Restart

  function Apply(eventRules: set<string>, e: Engine, op: Op): Engine {
    match op
    case Check(rule, equip, sub, value, target, ts) =>
      Watched(e, Key(rule.id, equip, sub), Deviates(rule, value, target), ts, ts, rule.hold, ts)
    case Event(rule, equip, ts) => Signalled(e, Key(rule.id, equip, ""), ts)
    case Comm(keyId, equip, bad, hold, ts, started, now) => Watched(e, Key("COMM", equip, keyId), bad, started, now, hold, ts)
    case Ack(id, ts) => AckedAt(e, id, eventRules, ts)
    case Purge(cutoff) => Purged(e, cutoff)
    case Restart => Restarted(e)
  }

  const NO_ALARMS := Engine(map[], map[], [])

  function Run(eventRules: set<string>, ops: seq<Op>): Engine {
    if ops == [] then NO_ALARMS else Apply(eventRules, Run(eventRules, ops[..|ops| - 1]), ops[|ops| - 1])
  }

  lemma ApplyKeeps(eventRules: set<string>, e: Engine, op: Op)
    requires Consistent(e)
    ensures Consistent(Apply(eventRules, e, op))
  {
    hide Consistent, Watched, Signalled, AckedAt, Purged, Deviates;
    match op
    case Check(rule, equip, sub, value, target, ts) =>
      WatchKeeps(e, Key(rule.id, equip, sub), Deviates(rule, value, target), ts, ts, rule.hold, ts);
    case Event(rule, equip, ts) => SignalKeeps(e, Key(rule.id, equip, ""), ts);
    case Comm(keyId, equip, bad, hold, ts, started, now) =>
      WatchKeeps(e, Key("COMM", equip, keyId), bad, started, now, hold, ts);
    case Ack(id, ts) => AckKeeps(e, id, eventRules, ts);
    case Purge(cutoff) => PurgeKeeps(e, cutoff);
    case Restart => RestartKeeps(e);
  }

  lemma RestartKeeps(e: Engine)
    requires Consistent(e)
    ensures Consistent(Restarted(e))
  {
    RebuiltIndex(e.table);
  }

  /** After any interleaving of checks, events, communication alarms, acknowledgements, purges and
      restarts the index in memory is the one a restart would read, injective, with at most one open
      alarm for each key. */
  lemma {:induction false} IndexAlwaysTheTable(eventRules: set<string>, ops: seq<Op>)
    ensures var e := Run(eventRules, ops);
            && Consistent(e) && e.active == Rebuilt(e.table)
            && (forall k, l :: k in e.active && l in e.active && e.active[k] == e.active[l] ==> k == l)
            && (forall a, b :: a in e.table && b in e.table && Open(a) && Open(b) && a.key == b.key ==> a == b)
  {
    hide Apply, Consistent, Open;
    if ops != [] {
      IndexAlwaysTheTable(eventRules, ops[..|ops| - 1]);
      ApplyKeeps(eventRules, Run(eventRules, ops[..|ops| - 1]), ops[|ops| - 1]);
    } else {
      assert Consistent(NO_ALARMS) by { NoAlarmsConsistent(); }
    }
    IndexIsTheTable(Run(eventRules, ops));
  }

  lemma NoAlarmsConsistent()
    ensures Consistent(NO_ALARMS)
  {
  }

  // ---------- cleared rows are final ----------

  lemma ClearedStays(eventRules: set<string>, e: Engine, op: Op, a: Alarm)
    requires Consistent(e) && a in e.table && a.status == Cleared
    ensures a in Apply(eventRules, e, op).table || (op.Purge? && Expired(a, op.cutoff))
  {
    var n :| 0 <= n < |e.table| && e.table[n] == a;
    hide Deviates, Rebuilt;
    match op
    case Check(rule, equip, sub, value, target, ts) =>
      ClearedNotWatched(e, Key(rule.id, equip, sub), Deviates(rule, value, target), ts, ts, rule.hold, ts, n);
    case Event(rule, equip, ts) => ClearedNotActive(e, Key(rule.id, equip, ""), n);
      assert Apply(eventRules, e, op).table[n] == a;
    case Comm(keyId, equip, bad, hold, ts, started, now) =>
      ClearedNotWatched(e, Key("COMM", equip, keyId), bad, started, now, hold, ts, n);
    case Ack(id, ts) =>
      if Get(e.table, id).Some? && id == a.id { SameIdSameAlarm(e, Get(e.table, id).value, a); }
      assert Apply(eventRules, e, op).table[n] == a;
    case Purge(cutoff) =>
    case Restart =>
  }

  lemma SameIdSameAlarm(e: Engine, a: Alarm, b: Alarm)
    requires Consistent(e) && a in e.table && b in e.table && a.id == b.id
    ensures a == b
  {
    var i :| 0 <= i < |e.table| && e.table[i] == a;
    var j :| 0 <= j < |e.table| && e.table[j] == b;
    assert i == j;
  }

  lemma ClearedNotActive(e: Engine, key: Key, n: nat)
    requires Consistent(e) && n < |e.table| && e.table[n].status == Cleared
    ensures key in e.active ==> e.active[key] != e.table[n].id
  {
    if key in e.active {
      OpenRow(e, key);
      assert e.table[n] in e.table;
    }
  }

  lemma ClearedNotWatched(e: Engine, key: Key, bad: bool, started: int, now: int, hold: int, clearing: int, n: nat)
    requires Consistent(e) && n < |e.table| && e.table[n].status == Cleared
    ensures e.table[n] in Watched(e, key, bad, started, now, hold, clearing).table
  {
    ClearedNotActive(e, key, n);
    hide Consistent;
    assert Watched(e, key, bad, started, now, hold, clearing).table[n] == e.table[n];
  }

  /** A cleared alarm never changes again: at any later time it is in the table just as it was, unless a
      purge with a cutoff after its clearing has removed it. */
  lemma {:induction false} ClearedIsFinal(eventRules: set<string>, ops: seq<Op>, more: seq<Op>, a: Alarm)
    requires a in Run(eventRules, ops).table && a.status == Cleared
    ensures a in Run(eventRules, ops + more).table || exists op :: op in more && op.Purge? && Expired(a, op.cutoff)
  {
    hide Apply, Consistent, Expired;
    if more == [] {
      assert ops + more == ops;
    } else {
      var n := |more| - 1;
      ClearedIsFinal(eventRules, ops, more[..n], a);
      assert (ops + more)[..|ops + more| - 1] == ops + more[..n];
      if a in Run(eventRules, ops + more[..n]).table {
        IndexAlwaysTheTable(eventRules, ops + more[..n]);
        ClearedStays(eventRules, Run(eventRules, ops + more[..n]), more[n], a);
        assert more[n] in more;
      } else {
        var op :| op in more[..n] && op.Purge? && Expired(a, op.cutoff);
        assert op in more;
      }
    }
  }
}
