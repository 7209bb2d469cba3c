// Live updates to the dashboard: the hub conflates value messages per equipment and sends everything in
// batches; the browser reduces the messages it gets to a view.  Conflation must not show.

module LiveView {
  import opened Outcomes
  import Alarms

  /** `rest` stands for the fields a message carries along unexamined. */
  datatype Msg =
    | Value(equip: string, values: map<string, real>, rest: string)
    | AlarmChanged(alarm: Alarms.Alarm)
    | Summary(content: string)
    | Topology(content: string)
    | EquipStatus(equip: string, status: string)
    | EdgeBuffer(content: string)
    | Snapshot(summary: string, topology: string, alarms: seq<Alarms.Alarm>, shown: map<string, Shown>,
               statuses: map<string, string>)
    | Unhandled(kind: string)

  datatype Shown = Shown(values: map<string, real>, rest: string)

  datatype View = View(summary: Option<string>, topology: Option<string>, alarms: map<nat, Alarms.Alarm>,
                       values: map<string, Shown>, status: map<string, string>, buffer: Option<string>,
                       lastAlarmId: Option<nat>)

  // ---------- the browser ----------

  function ById(alarms: seq<Alarms.Alarm>): map<nat, Alarms.Alarm> {
    if alarms == [] then map[]
    else ById(alarms[..|alarms| - 1])[alarms[|alarms| - 1].id := alarms[|alarms| - 1]]
  }

  function ValuesShown(v: View, equip: string): map<string, real> {
    if equip in v.values then v.values[equip].values else map[]
  }

  function Reduce(v: View, m: Msg): View {
    match m
    case Snapshot(summary, topology, alarms, shown, statuses) =>
      v.(summary := Some(summary), topology := Some(topology), alarms := ById(alarms), values := shown, status := statuses)
    case Summary(content) => v.(summary := Some(content))
    case Topology(content) => v.(topology := Some(content))
    case EquipStatus(equip, status) => v.(status := v.status[equip := status])
    case Value(equip, values, rest) =>
      v.(values := v.values[equip := Shown(ValuesShown(v, equip) + values, rest)])
    case AlarmChanged(a) =>
      var isNew := a.id !in v.alarms && a.status == Alarms.Raised;
      v.(alarms := v.alarms[a.id := a], lastAlarmId := if isNew then Some(a.id) else v.lastAlarmId)
    case EdgeBuffer(content) => v.(buffer := Some(content))
    case Unhandled(_) => v
  }

  function ReduceAll(v: View, msgs: seq<Msg>): View {
    if msgs == [] then v else Reduce(ReduceAll(v, msgs[..|msgs| - 1]), msgs[|msgs| - 1])
  }

  // ---------- the hub ----------

  datatype Hub = Hub(queue: seq<Msg>, pending: seq<Msg>)

  /** The pending value messages, one for each equipment, in the order the equipment first appeared. */
  ghost predicate PendingOk(pending: seq<Msg>) {
    && (forall i :: 0 <= i < |pending| ==> pending[i].Value?)
    && (forall i, j :: 0 <= i < j < |pending| ==> pending[i].Value? && pending[j].Value? ==> pending[i].equip != pending[j].equip)
  }

  function Merged(prev: Msg, m: Msg): Msg
    requires prev.Value? && m.Value?
  {
    m.(values := prev.values + m.values)
  }

  function FindPending(pending: seq<Msg>, equip: string): (r: Option<nat>)
    ensures r.Some? ==> r.value < |pending| && pending[r.value].Value? && pending[r.value].equip == equip
    ensures r.None? ==> forall i :: 0 <= i < |pending| && pending[i].Value? ==> pending[i].equip != equip
  {
    if pending == [] then None
    else if pending[|pending| - 1].Value? && pending[|pending| - 1].equip == equip then Some(|pending| - 1)
    else FindPending(pending[..|pending| - 1], equip)
  }

  function Published(h: Hub, m: Msg): Hub {
    if m.Value? then
      match FindPending(h.pending, m.equip)
      case None => h.(pending := h.pending + [m])
      case Some(i) => h.(pending := h.pending[i := Merged(h.pending[i], m)])
    else h.(queue := h.queue + [m])
  }

  class WsHub {
    var queue: seq<Msg>
    var pending: seq<Msg>

    function State(): Hub
      reads this
    {
      Hub(queue, pending)
    }

    constructor ()
      ensures State() == Hub([], [])
    {
      queue, pending := [], [];
    }

    method Publish(m: Msg)
      modifies this
      ensures State() == Published(old(State()), m)
    {
      if m.Value? {
        var prev := FindPending(pending, m.equip);
        if prev.Some? {
          pending := pending[prev.value := Merged(pending[prev.value], m)];
        } else {
          pending := pending + [m];
        }
      } else {
        queue := queue + [m];
      }
    }

    /** A turn of the flush loop that does not raise.  At the slower rhythm it publishes the changes of the
        communication alarms and then adds the summaries it has made. */
    method Flush(slow: bool, commAlarms: seq<Msg>, summaries: seq<Msg>) returns (msgs: seq<Msg>)
      requires forall m :: m in commAlarms ==> m.AlarmChanged?
      modifies this
      ensures State() == Hub([], [])
      ensures msgs == old(queue) + old(pending) + if slow then commAlarms + summaries else []
    {
      msgs := queue + pending;
      queue, pending := [], [];
      if slow {
        for i := 0 to |commAlarms|
          invariant State() == Hub(commAlarms[..i], [])
        {
          assert commAlarms[i] in commAlarms;
          Publish(commAlarms[i]);
          assert commAlarms[..i + 1] == commAlarms[..i] + [commAlarms[i]];
        }
        msgs := msgs + queue;
        queue := [];
        msgs := msgs + summaries;
        assert commAlarms[..|commAlarms|] == commAlarms;
      }
    }
  }

  // ---------- messages that do not interfere ----------

  lemma {:induction false} ReduceAppend(v: View, a: seq<Msg>, b: seq<Msg>)
    ensures ReduceAll(v, a + b) == ReduceAll(ReduceAll(v, a), b)
  {
    if b == [] {
      assert a + b == a;
    } else {
      var n := |b| - 1;
      assert (a + b)[..|a + b| - 1] == a + b[..n];
      ReduceAppend(v, a, b[..n]);
    }
  }

  predicate Commuting(a: Msg, b: Msg) {
    a.Value? && !b.Snapshot? && (b.Value? ==> a.equip != b.equip)
  }

  lemma Commutes(v: View, a: Msg, b: Msg)
    requires Commuting(a, b)
    ensures Reduce(Reduce(v, a), b) == Reduce(Reduce(v, b), a)
  {
    if b.Value? {
      assert v.values[a.equip := Shown(ValuesShown(v, a.equip) + a.values, a.rest)]
             [b.equip := Shown(ValuesShown(v, b.equip) + b.values, b.rest)] ==
             v.values[b.equip := Shown(ValuesShown(v, b.equip) + b.values, b.rest)]
             [a.equip := Shown(ValuesShown(v, a.equip) + a.values, a.rest)];
    }
  }

  /** A message may move in front of value messages it does not interfere with. */
  lemma {:induction false} MovesAhead(v: View, vals: seq<Msg>, m: Msg)
    requires forall i :: 0 <= i < |vals| ==> Commuting(vals[i], m)
    ensures ReduceAll(Reduce(v, m), vals) == Reduce(ReduceAll(v, vals), m)
  {
    if vals != [] {
      var n := |vals| - 1;
      MovesAhead(v, vals[..n], m);
      Commutes(ReduceAll(v, vals[..n]), vals[n], m);
    }
  }

  lemma MergedTwice(v: View, prev: Msg, m: Msg)
    requires prev.Value? && m.Value? && prev.equip == m.equip
    ensures Reduce(v, Merged(prev, m)) == Reduce(Reduce(v, prev), m)
  {
    var w := Reduce(v, prev);
    assert ValuesShown(v, m.equip) + (prev.values + m.values) == (ValuesShown(v, m.equip) + prev.values) + m.values;
    assert v.values[m.equip := Shown(ValuesShown(v, m.equip) + (prev.values + m.values), m.rest)] ==
           w.values[m.equip := Shown(ValuesShown(w, m.equip) + m.values, m.rest)];
  }

  lemma ReduceOne(v: View, m: Msg, rest: seq<Msg>)
    ensures ReduceAll(v, [m] + rest) == ReduceAll(Reduce(v, m), rest)
  {
    ReduceAppend(v, [m], rest);
    assert [m][..0] == [];
    assert ReduceAll(v, [m]) == Reduce(ReduceAll(v, []), m);
  }

  lemma OthersCommute(pending: seq<Msg>, i: nat, m: Msg, rest: seq<Msg>)
    requires PendingOk(pending) && m.Value? && i < |pending| && pending[i].Value? && pending[i].equip == m.equip
    requires rest == pending[i + 1..]
    ensures forall j :: 0 <= j < |rest| ==> Commuting(rest[j], m)
  {
    assert forall j :: 0 <= j < |rest| ==> rest[j] == pending[i + 1 + j];
  }

  lemma MergedInPlace(v: View, pending: seq<Msg>, i: nat, m: Msg)
    requires PendingOk(pending) && m.Value? && i < |pending| && pending[i].Value? && pending[i].equip == m.equip
    ensures ReduceAll(v, pending[i := Merged(pending[i], m)]) == Reduce(ReduceAll(v, pending), m)
  {
    OthersCommute(pending, i, m, pending[i + 1..]);
    hide PendingOk, Reduce, ReduceAll, Merged, Commuting;
    var a, b, x := pending[..i], pending[i + 1..], pending[i];
    var y, u := Merged(x, m), ReduceAll(v, a);
    assert pending == a + ([x] + b) && pending[i := y] == a + ([y] + b);
    ReduceAppend(v, a, [x] + b);
    ReduceAppend(v, a, [y] + b);
    ReduceOne(u, x, b);
    ReduceOne(u, y, b);
    MergedTwice(u, x, m);
    MovesAhead(Reduce(u, x), b, m);
  }

  // ---------- what is still to come makes the view complete ----------

  /** The view with everything still waiting in the hub applied. */
  function Caught(v: View, h: Hub): View {
    ReduceAll(v, h.queue + h.pending)
  }

  lemma PublishedKeepsOne(h: Hub, m: Msg)
    requires PendingOk(h.pending)
    ensures PendingOk(Published(h, m).pending)
  {
  }

  lemma ReduceSnoc(v: View, msgs: seq<Msg>, m: Msg)
    ensures ReduceAll(v, msgs + [m]) == Reduce(ReduceAll(v, msgs), m)
  {
    assert (msgs + [m])[..|msgs|] == msgs;
  }

  lemma AllCommute(pending: seq<Msg>, m: Msg)
    requires PendingOk(pending) && !m.Snapshot? && !m.Value?
    ensures forall j :: 0 <= j < |pending| ==> Commuting(pending[j], m)
  {
  }

  lemma PublishedIsApplied(v: View, h: Hub, m: Msg)
    requires PendingOk(h.pending) && !m.Snapshot?
    ensures Caught(v, Published(h, m)) == Reduce(Caught(v, h), m)
  {
    if !m.Value? { AllCommute(h.pending, m); }
    hide Reduce, ReduceAll, Merged, PendingOk, FindPending, Commuting;
    var u := ReduceAll(v, h.queue);
    ReduceAppend(v, h.queue, h.pending);
    if m.Value? {
      ReduceAppend(v, h.queue, Published(h, m).pending);
      match FindPending(h.pending, m.equip)
      case None => ReduceSnoc(u, h.pending, m);
      case Some(i) => MergedInPlace(u, h.pending, i, m);
    } else {
      ReduceAppend(v, h.queue + [m], h.pending);
      ReduceSnoc(v, h.queue, m);
      MovesAhead(u, h.pending, m);
    }
  }

  datatype Event = Publish(m: Msg) | Flush(slow: bool, commAlarms: seq<Msg>, summaries: seq<Msg>)

  datatype System = System(hub: Hub, conflated: View, direct: View)

  /** One browser gets what the hub sends, the other every message at once. */
  function Next(s: System, e: Event): System {
    match e
    case Publish(m) => System(Published(s.hub, m), s.conflated, Reduce(s.direct, m))
    case Flush(slow, commAlarms, summaries) =>
      var added := if slow then commAlarms + summaries else [];
      System(Hub([], []), ReduceAll(s.conflated, s.hub.queue + s.hub.pending + added), ReduceAll(s.direct, added))
  }

  function Run(v: View, events: seq<Event>): System {
    if events == [] then System(Hub([], []), v, v) else Next(Run(v, events[..|events| - 1]), events[|events| - 1])
  }

  predicate NoSnapshots(events: seq<Event>) {
    forall e :: e in events && e.Publish? ==> !e.m.Snapshot?
  }

  /** At every moment the browser behind the hub lacks exactly what still waits there. */
  lemma {:induction false} NothingIsLost(v: View, events: seq<Event>)
    requires NoSnapshots(events)
    ensures PendingOk(Run(v, events).hub.pending)
    ensures Caught(Run(v, events).conflated, Run(v, events).hub) == Run(v, events).direct
  {
    hide Published, Reduce, PendingOk;
    if events == [] {
      assert PendingOk([]) by { NonePending(); }
      NothingWaits();
    } else {
      var n := |events| - 1;
      assert events[n] in events && forall e :: e in events[..n] ==> e in events;
      NothingIsLost(v, events[..n]);
      var s := Run(v, events[..n]);
      match events[n]
      case Publish(m) =>
        PublishedKeepsOne(s.hub, m);
        PublishedIsApplied(s.conflated, s.hub, m);
      case Flush(slow, commAlarms, summaries) =>
        ReduceAppend(s.conflated, s.hub.queue + s.hub.pending, if slow then commAlarms + summaries else []);
        NonePending();
        NothingWaits();
    }
  }

  lemma NothingWaits()
    ensures forall v :: Caught(v, Hub([], [])) == v
  {
    var none: seq<Msg> := [];
    assert none + none == none;
  }

  lemma NonePending()
    ensures PendingOk([])
  {
  }

  /** After each flush the browser shows what it would show had it been sent every message by itself. */
  lemma ConflationIsInvisible(v: View, events: seq<Event>, slow: bool, commAlarms: seq<Msg>, summaries: seq<Msg>)
    requires NoSnapshots(events)
    ensures var s := Run(v, events + [Flush(slow, commAlarms, summaries)]);
            s.conflated == s.direct && s.hub == Hub([], [])
  {
    var flush := Flush(slow, commAlarms, summaries);
    var all := events + [flush];
    assert all[..|events|] == events && all[|events|] == flush;
    assert NoSnapshots(all);
    NothingIsLost(v, all);
    NothingWaits();
  }
}
