// What a browser shows after any messages, told by the messages themselves: each part of the view comes from the last
// message that speaks of it.

module LiveMeaning {
  import opened Outcomes
  import Alarms
  import opened LiveView

  /** The last message of which `p` holds. */
  function LastWhere(msgs: seq<Msg>, p: Msg -> bool): (r: Option<nat>)
    ensures r.Some? ==> r.value < |msgs| && p(msgs[r.value]) && forall j :: r.value < j < |msgs| ==> !p(msgs[j])
    ensures r.None? ==> forall j :: 0 <= j < |msgs| ==> !p(msgs[j])
  {
    if msgs == [] then None
    else if p(msgs[|msgs| - 1]) then Some(|msgs| - 1)
    else LastWhere(msgs[..|msgs| - 1], p)
  }

  // ---------- summary, topology, buffer ----------

  /** The summary is that of the last message that carries one, which is a summary or a snapshot. */
  lemma {:induction false} SummaryIsTheLast(v: View, msgs: seq<Msg>)
    ensures ReduceAll(v, msgs).summary ==
            match LastWhere(msgs, (m: Msg) => m.Summary? || m.Snapshot?)
            case None => v.summary
            case Some(i) => Some(if msgs[i].Summary? then msgs[i].content else msgs[i].summary)
  {
    if msgs != [] { SummaryIsTheLast(v, msgs[..|msgs| - 1]); }
  }

  lemma {:induction false} TopologyIsTheLast(v: View, msgs: seq<Msg>)
    ensures ReduceAll(v, msgs).topology ==
            match LastWhere(msgs, (m: Msg) => m.Topology? || m.Snapshot?)
            case None => v.topology
            case Some(i) => Some(if msgs[i].Topology? then msgs[i].content else msgs[i].topology)
  {
    if msgs != [] { TopologyIsTheLast(v, msgs[..|msgs| - 1]); }
  }

  /** A snapshot does not speak of the buffer. */
  lemma {:induction false} BufferIsTheLast(v: View, msgs: seq<Msg>)
    ensures ReduceAll(v, msgs).buffer ==
            match LastWhere(msgs, (m: Msg) => m.EdgeBuffer?)
            case None => v.buffer
            case Some(i) => Some(msgs[i].content)
  {
    if msgs != [] { BufferIsTheLast(v, msgs[..|msgs| - 1]); }
  }

  // ---------- device states ----------

  function StateOf(states: map<string, string>, equip: string): Option<string> {
    if equip in states then Some(states[equip]) else None
  }

  lemma {:induction false} StatusIsTheLast(v: View, msgs: seq<Msg>, equip: string)
    ensures StateOf(ReduceAll(v, msgs).status, equip) ==
            match LastWhere(msgs, (m: Msg) => (m.EquipStatus? && m.equip == equip) || m.Snapshot?)
            case None => StateOf(v.status, equip)
            case Some(i) => if msgs[i].EquipStatus? then Some(msgs[i].status) else StateOf(msgs[i].statuses, equip)
  {
    if msgs != [] { StatusIsTheLast(v, msgs[..|msgs| - 1], equip); }
  }

  // ---------- alarms ----------

  function AlarmAt(alarms: map<nat, Alarms.Alarm>, id: nat): Option<Alarms.Alarm> {
    if id in alarms then Some(alarms[id]) else None
  }

  /** The last alarm of the list with this number. */
  function Listed(alarms: seq<Alarms.Alarm>, id: nat): (r: Option<Alarms.Alarm>)
    ensures r.None? <==> forall i :: 0 <= i < |alarms| ==> alarms[i].id != id
    ensures r.Some? ==> exists i :: 0 <= i < |alarms| && alarms[i] == r.value && r.value.id == id
                                    && forall j :: i < j < |alarms| ==> alarms[j].id != id
  {
    if alarms == [] then None
    else
      var n := |alarms| - 1;
      assert forall i :: 0 <= i < n ==> alarms[..n][i] == alarms[i];
      if alarms[n].id == id then Some(alarms[n]) else Listed(alarms[..n], id)
  }

  lemma {:induction false} ByIdIsListed(alarms: seq<Alarms.Alarm>, id: nat)
    ensures AlarmAt(ById(alarms), id) == Listed(alarms, id)
  {
    if alarms != [] { ByIdIsListed(alarms[..|alarms| - 1], id); }
  }

  /** An alarm is as the last message about it says. */
  lemma {:induction false} AlarmIsTheLast(v: View, msgs: seq<Msg>, id: nat)
    ensures AlarmAt(ReduceAll(v, msgs).alarms, id) ==
            match LastWhere(msgs, (m: Msg) => (m.AlarmChanged? && m.alarm.id == id) || m.Snapshot?)
            case None => AlarmAt(v.alarms, id)
            case Some(i) => if msgs[i].AlarmChanged? then Some(msgs[i].alarm) else Listed(msgs[i].alarms, id)
  {
    hide ById, Listed;
    if msgs != [] {
      AlarmIsTheLast(v, msgs[..|msgs| - 1], id);
      if msgs[|msgs| - 1].Snapshot? { ByIdIsListed(msgs[|msgs| - 1].alarms, id); }
    }
  }

  /** The i-th message brings a raised alarm the view does not have before it. */
  ghost predicate BringsNew(v: View, msgs: seq<Msg>, i: nat) {
    i < |msgs| && msgs[i].AlarmChanged? && msgs[i].alarm.status == Alarms.Raised
    && AlarmAt(ReduceAll(v, msgs[..i]).alarms, msgs[i].alarm.id) == None
  }

  ghost predicate LastNew(v: View, msgs: seq<Msg>, i: nat) {
    BringsNew(v, msgs, i) && forall j: nat :: i < j < |msgs| ==> !BringsNew(v, msgs, j)
  }

  lemma PrefixBrings(v: View, msgs: seq<Msg>, i: nat)
    requires msgs != [] && i < |msgs| - 1
    ensures BringsNew(v, msgs, i) <==> BringsNew(v, msgs[..|msgs| - 1], i)
  {
    var before := msgs[..|msgs| - 1];
    assert before[..i] == msgs[..i] && before[i] == msgs[i];
    hide ReduceAll;
  }

  /** `lastAlarmId` is the number of the last alarm that was new to the view and raised. */
  lemma {:induction false} LastAlarmIsTheLastNew(v: View, msgs: seq<Msg>)
    ensures (forall i: nat :: i < |msgs| ==> !BringsNew(v, msgs, i)) ==> ReduceAll(v, msgs).lastAlarmId == v.lastAlarmId
    ensures forall i: nat :: LastNew(v, msgs, i) ==> ReduceAll(v, msgs).lastAlarmId == Some(msgs[i].alarm.id)
  {
    if msgs != [] {
      var n := |msgs| - 1;
      var before := msgs[..n];
      LastAlarmIsTheLastNew(v, before);
      LastStep(v, msgs);
      hide ReduceAll, BringsNew;
      forall i: nat | i < n
        ensures BringsNew(v, msgs, i) <==> BringsNew(v, before, i)
      {
        PrefixBrings(v, msgs, i);
      }
      forall i: nat | LastNew(v, msgs, i)
        ensures ReduceAll(v, msgs).lastAlarmId == Some(msgs[i].alarm.id)
      {
        LastInside(v, msgs, i);
        if i < n {
          assert LastNew(v, before, i);
          assert before[i] == msgs[i];
        }
      }
    }
  }

  lemma LastInside(v: View, msgs: seq<Msg>, i: nat)
    requires LastNew(v, msgs, i)
    ensures i < |msgs| && msgs[i].AlarmChanged?
    ensures i < |msgs| - 1 ==> !BringsNew(v, msgs, |msgs| - 1)
  {
    hide ReduceAll;
  }

  lemma LastStep(v: View, msgs: seq<Msg>)
    requires msgs != []
    ensures ReduceAll(v, msgs).lastAlarmId ==
            if BringsNew(v, msgs, |msgs| - 1) then Some(msgs[|msgs| - 1].alarm.id)
            else ReduceAll(v, msgs[..|msgs| - 1]).lastAlarmId
  {
    var before := ReduceAll(v, msgs[..|msgs| - 1]);
    assert ReduceAll(v, msgs) == Reduce(before, msgs[|msgs| - 1]);
    hide ReduceAll;
  }

  // ---------- values ----------

  function ValueAt(values: map<string, Shown>, equip: string, key: string): Option<real> {
    if equip in values && key in values[equip].values then Some(values[equip].values[key]) else None
  }

  /** A value is that of the last message about the equipment that carries it. */
  lemma {:induction false} ValueIsTheLast(v: View, msgs: seq<Msg>, equip: string, key: string)
    ensures ValueAt(ReduceAll(v, msgs).values, equip, key) ==
            match LastWhere(msgs, (m: Msg) => (m.Value? && m.equip == equip && key in m.values) || m.Snapshot?)
            case None => ValueAt(v.values, equip, key)
            case Some(i) => if msgs[i].Value? then Some(msgs[i].values[key]) else ValueAt(msgs[i].shown, equip, key)
  {
    if msgs != [] { ValueIsTheLast(v, msgs[..|msgs| - 1], equip, key); }
  }

  function RestAt(values: map<string, Shown>, equip: string): Option<string> {
    if equip in values then Some(values[equip].rest) else None
  }

  /** All else that is shown with the values comes from the last message about the equipment. */
  lemma {:induction false} RestIsTheLast(v: View, msgs: seq<Msg>, equip: string)
    ensures RestAt(ReduceAll(v, msgs).values, equip) ==
            match LastWhere(msgs, (m: Msg) => (m.Value? && m.equip == equip) || m.Snapshot?)
            case None => RestAt(v.values, equip)
            case Some(i) => if msgs[i].Value? then Some(msgs[i].rest) else RestAt(msgs[i].shown, equip)
  {
    if msgs != [] { RestIsTheLast(v, msgs[..|msgs| - 1], equip); }
  }
}
