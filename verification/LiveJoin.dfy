// A browser that joins a running hub.  It gets a snapshot of the MES, taken before the hub knows of it, and
// then what the hub sends, part of which the snapshot shows already.  Values and open alarms come out right unless
// the hub sends something new between the snapshot and the join.

module LiveJoin {
  import opened Outcomes
  import Alarms
  import opened LiveView

  /** The alarms the dashboard lists. */
  function Active(alarms: map<nat, Alarms.Alarm>): map<nat, Alarms.Alarm> {
    map id | id in alarms && alarms[id].status != Alarms.Cleared :: alarms[id]
  }

  ghost predicate Agree(u: View, v: View) {
    u.values == v.values && Active(u.alarms) == Active(v.alarms)
  }

  /** The snapshot shows the last values and the open alarms, as a browser that was sent every message has them. */
  ghost predicate ShotOf(m: Msg, v: View) {
    m.Snapshot? && m.shown == v.values && ById(m.alarms) == Active(v.alarms)
  }

  lemma ShotAgrees(m: Msg, v: View, blank: View)
    requires ShotOf(m, v)
    ensures Agree(Reduce(blank, m), v)
  {
  }

  lemma AgreeReduce(u: View, v: View, m: Msg)
    requires Agree(u, v) && !m.Snapshot?
    ensures Agree(Reduce(u, m), Reduce(v, m))
  {
    if m.AlarmChanged? {
      ActiveUpdate(u.alarms, m.alarm);
      ActiveUpdate(v.alarms, m.alarm);
      hide Active;
    }
  }

  lemma ActiveUpdate(alarms: map<nat, Alarms.Alarm>, a: Alarms.Alarm)
    ensures Active(alarms[a.id := a]) ==
            if a.status != Alarms.Cleared then Active(alarms)[a.id := a] else Active(alarms) - {a.id}
  {
  }

  lemma {:induction false} AgreeReduceAll(u: View, v: View, msgs: seq<Msg>)
    requires Agree(u, v) && forall m :: m in msgs ==> !m.Snapshot?
    ensures Agree(ReduceAll(u, msgs), ReduceAll(v, msgs))
  {
    hide Agree, Reduce;
    if msgs != [] {
      var n := |msgs| - 1;
      assert msgs[n] in msgs && forall m :: m in msgs[..n] ==> m in msgs;
      AgreeReduceAll(u, v, msgs[..n]);
      AgreeReduce(ReduceAll(u, msgs[..n]), ReduceAll(v, msgs[..n]), msgs[n]);
    }
  }

  // ---------- what waits has been applied already ----------

  /** The last change of the alarm among the messages. */
  function LastOf(msgs: seq<Msg>, id: nat): Option<Alarms.Alarm> {
    if msgs == [] then None
    else
      var m := msgs[|msgs| - 1];
      if m.AlarmChanged? && m.alarm.id == id then Some(m.alarm) else LastOf(msgs[..|msgs| - 1], id)
  }

  ghost predicate NoValues(msgs: seq<Msg>) {
    forall m :: m in msgs ==> !m.Value? && !m.Snapshot?
  }

  /** Applying the value message again changes nothing. */
  ghost predicate ShownBy(v: View, m: Msg) {
    m.Value? ==>
      && m.equip in v.values && v.values[m.equip].rest == m.rest
      && v.values[m.equip].values + m.values == v.values[m.equip].values
  }

  ghost predicate AlarmsEchoed(queue: seq<Msg>, v: View) {
    NoValues(queue)
    && forall id :: LastOf(queue, id).Some? ==> id in v.alarms && v.alarms[id] == LastOf(queue, id).value
  }

  ghost predicate ValuesEchoed(pending: seq<Msg>, v: View) {
    PendingOk(pending) && forall i :: 0 <= i < |pending| ==> ShownBy(v, pending[i])
  }

  /** The view shows all that waits in the hub. */
  ghost predicate Echoed(h: Hub, v: View) {
    AlarmsEchoed(h.queue, v) && ValuesEchoed(h.pending, v)
  }

  lemma QueueEchoed(queue: seq<Msg>, v: View, m: Msg)
    requires AlarmsEchoed(queue, v) && !m.Value? && !m.Snapshot?
    ensures AlarmsEchoed(queue + [m], Reduce(v, m))
  {
    assert (queue + [m])[..|queue|] == queue;
  }

  lemma StillEchoed(pending: seq<Msg>, v: View, m: Msg)
    requires ValuesEchoed(pending, v) && !m.Value? && !m.Snapshot?
    ensures ValuesEchoed(pending, Reduce(v, m))
  {
    hide PendingOk;
  }

  lemma OthersShown(v: View, p: Msg, m: Msg)
    requires ShownBy(v, p) && p.Value? && m.Value? && p.equip != m.equip
    ensures ShownBy(Reduce(v, m), p)
  {
  }

  lemma MergedShown(v: View, p: Msg, m: Msg)
    requires ShownBy(v, p) && p.Value? && m.Value? && p.equip == m.equip
    ensures ShownBy(Reduce(v, m), Merged(p, m))
  {
    var before := v.values[m.equip].values;
    assert before + p.values == before;
    assert (before + m.values) + (p.values + m.values) == before + p.values + m.values;
  }

  lemma NewShown(v: View, m: Msg)
    requires m.Value?
    ensures ShownBy(Reduce(v, m), m)
  {
    assert (ValuesShown(v, m.equip) + m.values) + m.values == ValuesShown(v, m.equip) + m.values;
  }

  lemma ValueEchoed(h: Hub, v: View, m: Msg)
    requires ValuesEchoed(h.pending, v) && m.Value?
    ensures ValuesEchoed(Published(h, m).pending, Reduce(v, m))
  {
    PublishedKeepsOne(h, m);
    NewShown(v, m);
    var more, found := Published(h, m).pending, FindPending(h.pending, m.equip);
    assert forall i :: 0 <= i < |h.pending| ==> h.pending[i].Value?;
    assert forall i, j :: 0 <= i < j < |h.pending| ==> h.pending[i].equip != h.pending[j].equip;
    hide PendingOk, FindPending, Reduce, Merged, ShownBy;
    forall i | 0 <= i < |more|
      ensures ShownBy(Reduce(v, m), more[i])
    {
      if found.Some? && i == found.value {
        MergedShown(v, h.pending[i], m);
      } else if i < |h.pending| {
        OthersShown(v, h.pending[i], m);
      }
    }
  }

  lemma PublishEchoes(h: Hub, v: View, m: Msg)
    requires Echoed(h, v) && !m.Snapshot?
    ensures Echoed(Published(h, m), Reduce(v, m))
  {
    hide AlarmsEchoed, ValuesEchoed;
    if m.Value? {
      ValueEchoed(h, v, m);
      SameAlarms(h.queue, v, m);
      hide Reduce;
    } else {
      hide Reduce;
      QueueEchoed(h.queue, v, m);
      StillEchoed(h.pending, v, m);
    }
  }

  lemma SameAlarms(queue: seq<Msg>, v: View, m: Msg)
    requires AlarmsEchoed(queue, v) && m.Value?
    ensures AlarmsEchoed(queue, Reduce(v, m))
  {
  }

  lemma {:induction false} DirectShowsTheHub(v: View, events: seq<Event>)
    requires NoSnapshots(events)
    ensures Echoed(Run(v, events).hub, Run(v, events).direct)
  {
    if events == [] {
      NothingEchoed(v);
    } else {
      var n := |events| - 1;
      assert events[n] in events && forall e :: e in events[..n] ==> e in events;
      DirectShowsTheHub(v, events[..n]);
      var s := Run(v, events[..n]);
      hide Echoed, Published, Reduce, ReduceAll;
      match events[n]
      case Publish(m) => PublishEchoes(s.hub, s.direct, m);
      case Flush(slow, commAlarms, summaries) =>
        NothingEchoed(ReduceAll(s.direct, if slow then commAlarms + summaries else []));
    }
  }

  lemma NothingEchoed(v: View)
    ensures Echoed(Hub([], []), v)
  {
  }

  // ---------- and applying it again does no harm ----------

  lemma {:induction false} QueueApplied(u: View, queue: seq<Msg>)
    requires NoValues(queue)
    ensures ReduceAll(u, queue).values == u.values
    ensures forall id :: LastOf(queue, id).Some? ==>
                           id in ReduceAll(u, queue).alarms && ReduceAll(u, queue).alarms[id] == LastOf(queue, id).value
    ensures forall id :: LastOf(queue, id).None? ==>
                           && (id in ReduceAll(u, queue).alarms <==> id in u.alarms)
                           && (id in u.alarms ==> ReduceAll(u, queue).alarms[id] == u.alarms[id])
  {
    if queue != [] {
      var n := |queue| - 1;
      assert queue[n] in queue && forall m :: m in queue[..n] ==> m in queue;
      QueueApplied(u, queue[..n]);
    }
  }

  lemma QueueAgrees(u: View, queue: seq<Msg>, v: View)
    requires Agree(u, v) && AlarmsEchoed(queue, v)
    ensures Agree(ReduceAll(u, queue), v)
  {
    QueueApplied(u, queue);
    var w := ReduceAll(u, queue);
    hide ReduceAll;
    forall id: nat
      ensures id in Active(w.alarms) <==> id in Active(v.alarms)
      ensures id in Active(v.alarms) && id in Active(w.alarms) ==> Active(w.alarms)[id] == Active(v.alarms)[id]
    {
      if LastOf(queue, id).None? {
        hide LastOf;
        assert id in Active(u.alarms) <==> id in Active(v.alarms);
        assert id in Active(w.alarms) <==> id in Active(u.alarms);
      }
    }
  }

  lemma AgainNothing(u: View, m: Msg)
    requires m.Value? && ShownBy(u, m)
    ensures Reduce(u, m).values == u.values && Reduce(u, m).alarms == u.alarms
  {
    assert u.values[m.equip := u.values[m.equip]] == u.values;
  }

  lemma {:induction false} PendingApplied(u: View, pending: seq<Msg>)
    requires ValuesEchoed(pending, u)
    ensures ReduceAll(u, pending).values == u.values && ReduceAll(u, pending).alarms == u.alarms
  {
    if pending != [] {
      var n := |pending| - 1;
      assert ValuesEchoed(pending[..n], u);
      PendingApplied(u, pending[..n]);
      assert ShownBy(ReduceAll(u, pending[..n]), pending[n]);
      AgainNothing(ReduceAll(u, pending[..n]), pending[n]);
    }
  }

  /** A view that shows what waits agrees with itself brought up to date. */
  lemma CatchingUpAgrees(u: View, h: Hub, v: View)
    requires Agree(u, v) && Echoed(h, v)
    ensures Agree(Caught(u, h), v)
  {
    ReduceAppend(u, h.queue, h.pending);
    QueueAgrees(u, h.queue, v);
    var w := ReduceAll(u, h.queue);
    assert ValuesEchoed(h.pending, w) by { SameValuesEchoed(h.pending, v, w); }
    PendingApplied(w, h.pending);
    hide Active, ReduceAll, Echoed;
  }

  lemma SameValuesEchoed(pending: seq<Msg>, v: View, w: View)
    requires ValuesEchoed(pending, v) && v.values == w.values
    ensures ValuesEchoed(pending, w)
  {
  }

  // ---------- the joining browser ----------

  function RunFrom(s: System, events: seq<Event>): System {
    if events == [] then s else Next(RunFrom(s, events[..|events| - 1]), events[|events| - 1])
  }

  /** The browser agrees with one that is sent every message, but for what still waits. */
  ghost predicate InStep(s: System) {
    PendingOk(s.hub.pending) && Agree(Caught(s.conflated, s.hub), s.direct)
  }

  predicate NoSnapshot(e: Event) {
    match e
    case Publish(m) => !m.Snapshot?
    case Flush(_, commAlarms, summaries) => forall m :: m in commAlarms + summaries ==> !m.Snapshot?
  }

  lemma StaysInStep(s: System, e: Event)
    requires InStep(s) && NoSnapshot(e)
    ensures InStep(Next(s, e))
  {
    hide Agree, Reduce, Published, PendingOk;
    match e
    case Publish(m) =>
      PublishedKeepsOne(s.hub, m);
      PublishedIsApplied(s.conflated, s.hub, m);
      AgreeReduce(Caught(s.conflated, s.hub), s.direct, m);
    case Flush(slow, commAlarms, summaries) =>
      var added := if slow then commAlarms + summaries else [];
      ReduceAppend(s.conflated, s.hub.queue + s.hub.pending, added);
      AgreeReduceAll(Caught(s.conflated, s.hub), s.direct, added);
      NonePending();
      NothingWaits();
  }

  lemma {:induction false} RunsInStep(s: System, events: seq<Event>)
    requires InStep(s) && forall e :: e in events ==> NoSnapshot(e)
    ensures InStep(RunFrom(s, events))
  {
    hide InStep, Next, NoSnapshot;
    if events != [] {
      var n := |events| - 1;
      assert events[n] in events && forall e :: e in events[..n] ==> e in events;
      RunsInStep(s, events[..n]);
      StaysInStep(RunFrom(s, events[..n]), events[n]);
    }
  }

  lemma {:induction false} HubHoldsNoSnapshot(v: View, events: seq<Event>)
    requires NoSnapshots(events)
    ensures forall m :: m in Run(v, events).hub.queue + Run(v, events).hub.pending ==> !m.Snapshot?
  {
    DirectShowsTheHub(v, events);
    hide Run;
  }

  lemma AgreeTransitive(u: View, v: View, w: View)
    requires Agree(u, v)
    ensures Agree(u, w) <==> Agree(v, w)
  {
  }

  /** A browser joins with a snapshot taken after `before`, when `mid` has happened since, flushes or not.  It is in step if
      and only if what the snapshot showed, with what waits in the hub now, shows all that has been
      published: that is, unless a flush in between has sent something that still matters. */
  lemma JoinExact(v: View, before: seq<Event>, mid: seq<Event>, shot: Msg, blank: View)
    requires NoSnapshots(before + mid) && ShotOf(shot, Run(v, before).direct)
    ensures var s := Run(v, before + mid);
            InStep(s.(conflated := Reduce(blank, shot))) <==> Agree(Caught(Run(v, before).direct, s.hub), s.direct)
  {
    var shown, s := Run(v, before).direct, Run(v, before + mid);
    ShotAgrees(shot, shown, blank);
    HubHoldsNoSnapshot(v, before + mid);
    NothingIsLost(v, before + mid);
    hide Run, Agree, Reduce, ReduceAll, ShotOf, PendingOk;
    AgreeReduceAll(Reduce(blank, shot), shown, s.hub.queue + s.hub.pending);
    AgreeTransitive(Caught(Reduce(blank, shot), s.hub), Caught(shown, s.hub), s.direct);
  }

  lemma NoSnapshotsPrefix(before: seq<Event>, mid: seq<Event>)
    requires NoSnapshots(before + mid)
    ensures NoSnapshots(before)
  {
    forall e | e in before
      ensures e in before + mid
    {
    }
  }

  /** As long as the hub does not flush, what was shown and what waits is all there is. */
  lemma {:induction false} UnflushedIsAll(v: View, before: seq<Event>, mid: seq<Event>)
    requires NoSnapshots(before + mid) && forall e :: e in mid ==> e.Publish?
    ensures Agree(Caught(Run(v, before).direct, Run(v, before + mid).hub), Run(v, before + mid).direct)
  {
    var shown := Run(v, before).direct;
    if mid == [] {
      assert before + mid == before;
      DirectShowsTheHub(v, before);
      hide Run, Echoed, Caught;
      assert Agree(shown, shown);
      CatchingUpAgrees(shown, Run(v, before).hub, shown);
    } else {
      var n := |mid| - 1;
      var all, prior := before + mid, before + mid[..n];
      assert mid[n] in mid && forall e :: e in mid[..n] ==> e in mid;
      assert all == prior + [mid[n]] && all[..|all| - 1] == prior && mid[n] in all;
      NoSnapshotsPrefix(prior, [mid[n]]);
      UnflushedIsAll(v, before, mid[..n]);
      NothingIsLost(v, prior);
      var s, m := Run(v, prior), mid[n].m;
      assert Run(v, all) == Next(s, mid[n]);
      hide Run, Agree, Reduce, Published, PendingOk, Caught;
      PublishedIsApplied(shown, s.hub, m);
      AgreeReduce(Caught(shown, s.hub), s.direct, m);
    }
  }

  /** So a browser that joins with no flush since its snapshot shows from then on the values and open alarms of one that is
      sent every message, but for what still waits in the hub. */
  lemma JoinerCatchesUp(v: View, before: seq<Event>, mid: seq<Event>, after: seq<Event>, shot: Msg, blank: View)
    requires NoSnapshots(before + mid) && ShotOf(shot, Run(v, before).direct)
    requires (forall e :: e in mid ==> e.Publish?) && forall e :: e in after ==> NoSnapshot(e)
    ensures InStep(RunFrom(Run(v, before + mid).(conflated := Reduce(blank, shot)), after))
  {
    hide Run, Next, InStep, Reduce, ShotOf, NoSnapshot, Agree, Caught;
    UnflushedIsAll(v, before, mid);
    JoinExact(v, before, mid, shot, blank);
    RunsInStep(Run(v, before + mid).(conflated := Reduce(blank, shot)), after);
  }

  /** After a flush nothing waits, and the views agree. */
  lemma InStepAfterFlush(s: System, slow: bool, commAlarms: seq<Msg>, summaries: seq<Msg>)
    requires InStep(s) && NoSnapshot(Flush(slow, commAlarms, summaries))
    ensures var t := Next(s, Flush(slow, commAlarms, summaries)); Agree(t.conflated, t.direct)
  {
    hide Agree, Caught, Reduce;
    StaysInStep(s, Flush(slow, commAlarms, summaries));
    NothingWaits();
  }

  /** If the hub flushes right before the join, nothing waits, and the browser is in step if and only if nothing it shows
      has changed since its snapshot. */
  lemma FlushedWhileJoining(v: View, before: seq<Event>, mid: seq<Event>, shot: Msg, blank: View)
    requires NoSnapshots(before + mid) && ShotOf(shot, Run(v, before).direct) && mid != [] && mid[|mid| - 1].Flush?
    ensures var joined := Run(v, before + mid).(conflated := Reduce(blank, shot));
            joined.hub == Hub([], []) && (InStep(joined) <==> Agree(Run(v, before).direct, Run(v, before + mid).direct))
  {
    var all := before + mid;
    assert all[|all| - 1] == mid[|mid| - 1];
    assert Run(v, all).hub == Hub([], []) by { hide ReduceAll; }
    hide Run, ShotOf, Reduce, Caught, InStep, Agree;
    JoinExact(v, before, mid, shot, blank);
    NothingWaits();
  }

  /** So a value that changes and is sent while a browser joins stays wrong there until the next message about it. */
  lemma ValueMissed(v: View, before: seq<Event>, m: Msg, shot: Msg, blank: View)
    requires NoSnapshots(before) && ShotOf(shot, Run(v, before).direct) && m.Value?
    requires Reduce(Run(v, before).direct, m).values != Run(v, before).direct.values
    ensures !InStep(Run(v, before + [Publish(m), Flush(false, [], [])]).(conflated := Reduce(blank, shot)))
  {
    var mid := [Publish(m), Flush(false, [], [])];
    var all := before + mid;
    assert all[..|all| - 1] == before + [Publish(m)] && (before + [Publish(m)])[..|before|] == before;
    hide Reduce, ShotOf, Published, InStep, Active;
    FlushedWhileJoining(v, before, mid, shot, blank);
  }

  // ---------- device states ----------

  /** A device of the topology and its state. */
  datatype Node = Node(id: string, status: string)

  /** What the slower rhythm of the hub sends about devices: the states that differ from those it sent last. */
  function StatusMsgs(prev: map<string, string>, nodes: seq<Node>): seq<Msg> {
    if nodes == [] then []
    else
      var n := nodes[|nodes| - 1];
      StatusMsgs(prev, nodes[..|nodes| - 1])
      + (if n.id in prev && prev[n.id] == n.status then [] else [EquipStatus(n.id, n.status)])
  }

  /** And what it remembers to have sent. */
  function Told(prev: map<string, string>, nodes: seq<Node>): map<string, string> {
    if nodes == [] then prev
    else Told(prev, nodes[..|nodes| - 1])[nodes[|nodes| - 1].id := nodes[|nodes| - 1].status]
  }

  ghost predicate DistinctNodes(nodes: seq<Node>) {
    forall i, j :: 0 <= i < j < |nodes| ==> nodes[i].id != nodes[j].id
  }

  predicate Has(m: map<string, string>, n: Node) {
    n.id in m && m[n.id] == n.status
  }

  lemma StatusSnoc(v: View, prev: map<string, string>, nodes: seq<Node>)
    requires nodes != []
    ensures var n := nodes[|nodes| - 1];
            var w := ReduceAll(v, StatusMsgs(prev, nodes[..|nodes| - 1])).status;
            ReduceAll(v, StatusMsgs(prev, nodes)).status == if Has(prev, n) then w else w[n.id := n.status]
  {
    var n, before := nodes[|nodes| - 1], StatusMsgs(prev, nodes[..|nodes| - 1]);
    assert before + [] == before;
    hide StatusMsgs, ReduceAll;
    ReduceSnoc(v, before, EquipStatus(n.id, n.status));
  }

  lemma {:induction false} NotTold(v: View, prev: map<string, string>, nodes: seq<Node>, id: string)
    requires forall j :: 0 <= j < |nodes| ==> nodes[j].id != id
    ensures var w := ReduceAll(v, StatusMsgs(prev, nodes));
            (id in w.status <==> id in v.status) && (id in v.status ==> w.status[id] == v.status[id])
  {
    if nodes != [] {
      var n := |nodes| - 1;
      NotTold(v, prev, nodes[..n], id);
      hide StatusMsgs, ReduceAll;
      StatusSnoc(v, prev, nodes);
    }
  }

  /** After the states are sent a browser has the state of a device right if and only if it was sent, or the browser
      had it right before. */
  lemma {:induction false} StatusExact(v: View, prev: map<string, string>, nodes: seq<Node>, i: nat)
    requires DistinctNodes(nodes) && i < |nodes|
    ensures Has(ReduceAll(v, StatusMsgs(prev, nodes)).status, nodes[i]) <==> !Has(prev, nodes[i]) || Has(v.status, nodes[i])
  {
    var n := |nodes| - 1;
    hide StatusMsgs, ReduceAll;
    StatusSnoc(v, prev, nodes);
    if i < n {
      StatusExact(v, prev, nodes[..n], i);
    } else {
      NotTold(v, prev, nodes[..n], nodes[n].id);
    }
  }

  lemma {:induction false} ToldLast(prev: map<string, string>, nodes: seq<Node>, i: nat)
    requires DistinctNodes(nodes) && i < |nodes|
    ensures Has(Told(prev, nodes), nodes[i])
  {
    if i < |nodes| - 1 { ToldLast(prev, nodes[..|nodes| - 1], i); }
  }

  /** So a browser that has all states as the hub sent them last keeps them right. */
  lemma StatusFollows(v: View, prev: map<string, string>, nodes: seq<Node>)
    requires DistinctNodes(nodes) && forall id :: id in prev ==> id in v.status && v.status[id] == prev[id]
    ensures forall i :: 0 <= i < |nodes| ==> Has(ReduceAll(v, StatusMsgs(prev, nodes)).status, nodes[i])
  {
    hide ReduceAll;
    forall i | 0 <= i < |nodes|
      ensures Has(ReduceAll(v, StatusMsgs(prev, nodes)).status, nodes[i])
    {
      StatusExact(v, prev, nodes, i);
    }
  }

  /** But one that joins has them from its snapshot, which the hub does not know of: a device whose state differed just
      then, and is back to what the hub sent last, stays wrong there. */
  lemma JoinedStatus(shot: Msg, blank: View, prev: map<string, string>, nodes: seq<Node>, i: nat)
    requires shot.Snapshot? && DistinctNodes(nodes) && i < |nodes|
    ensures Has(ReduceAll(Reduce(blank, shot), StatusMsgs(prev, nodes)).status, nodes[i]) <==>
            !Has(prev, nodes[i]) || Has(shot.statuses, nodes[i])
  {
    StatusExact(Reduce(blank, shot), prev, nodes, i);
    hide ReduceAll;
  }
}
