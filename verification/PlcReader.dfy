// The Edge's reader of one PLC as the object it is: it assembles the memory from the answers of its
// requests and then updates every device.

module PlcReader {
  import opened Outcomes
  import opened Modbus
  import opened Polling
  import opened ReadRanges
  import opened Acquisition

  type Sample = seq<(string, real)>

  function ValuesOf(emitted: seq<Emission>): (samples: seq<Sample>)
    ensures |samples| == |emitted| && forall i :: 0 <= i < |emitted| ==> samples[i] == emitted[i].values
  {
    seq(|emitted|, i requires 0 <= i < |emitted| => emitted[i].values)
  }

  function FromAnswer(r: Span, words: seq<Word>): map<int, Word> {
    map x | r.lo <= x < r.hi && In(x, r) && x - r.lo < |words| :: words[x - r.lo]
  }

  function Assembled(ranges: seq<Span>, answers: seq<seq<Word>>): map<int, Word>
    requires |answers| <= |ranges|
  {
    if answers == [] then map[]
    else
      var n := |answers| - 1;
      Assembled(ranges, answers[..n]) + FromAnswer(ranges[n], answers[n])
  }

  /** An answer that shows the memory is a copy of it, as the acquisition model has it. */
  lemma AnswerIsCopy(words: seq<Word>, r: Span)
    requires 0 <= r.lo <= r.hi <= |words|
    ensures FromAnswer(r, words[r.lo..r.hi]) == Copied(words, r)
  {
  }

  /** What an update does to the counter and to the samples, whatever else the track records. */
  ghost predicate Follows(before: Option<Word>, samples: seq<Sample>, after: Option<Word>, more: seq<Sample>,
                          mem: map<int, Word>, d: Device)
  {
    forall t: Track :: t.counter == before && ValuesOf(t.emitted) == samples ==>
                         after == Updated(t, mem, d).counter && more == ValuesOf(Updated(t, mem, d).emitted)
  }

  function At(mem: map<int, Word>, x: int): Option<Word> {
    if x in mem then Some(mem[x]) else None
  }

  /** The diagnostics area, 0 where the memory was not read. */
  function DiagIn(mem: map<int, Word>, base: int): (words: seq<Word>)
    ensures |words| == DIAG_WORDS
    ensures forall i :: 0 <= i < DIAG_WORDS ==> words[i] == if base + i in mem then mem[base + i] else 0
  {
    seq(DIAG_WORDS, i requires 0 <= i < DIAG_WORDS => if base + i in mem then mem[base + i] else 0)
  }

  /** A word that is watched for changes, and when it last changed. */
  datatype Pulse = Pulse(word: Option<Word>, changed: int)

  function Noticed(p: Pulse, word: Option<Word>, now: int): Pulse {
    if p.word != word then Pulse(word, now) else p
  }

  /** A word as it was found, and when. */
  datatype Look = Look(word: Option<Word>, now: int)

  function PulseAfter(looks: seq<Look>): Pulse {
    if looks == [] then Pulse(None, 0)
    else Noticed(PulseAfter(looks[..|looks| - 1]), looks[|looks| - 1].word, looks[|looks| - 1].now)
  }

  /** The word differs from the one found before, at first from none. */
  predicate ChangedAt(looks: seq<Look>, i: nat)
    requires i < |looks|
  {
    looks[i].word != if i == 0 then None else looks[i - 1].word
  }

  function LastChange(looks: seq<Look>, n: nat): (r: Option<nat>)
    requires n <= |looks|
    ensures r.Some? ==> r.value < n && ChangedAt(looks, r.value) && forall j :: r.value < j < n ==> !ChangedAt(looks, j)
    ensures r.None? ==> forall j :: 0 <= j < n ==> !ChangedAt(looks, j)
  {
    if n == 0 then None else if ChangedAt(looks, n - 1) then Some(n - 1) else LastChange(looks, n - 1)
  }

  /** Over any polls: the word watched is the one found last, and its time that of the last change. */
  lemma {:induction false} PulseIsTheLastChange(looks: seq<Look>, n: nat)
    requires n <= |looks|
    ensures PulseAfter(looks[..n]).word == if n == 0 then None else looks[n - 1].word
    ensures PulseAfter(looks[..n]).changed == match LastChange(looks, n) case None => 0 case Some(i) => looks[i].now
  {
    if n > 0 {
      PulseIsTheLastChange(looks, n - 1);
      assert looks[..n][..n - 1] == looks[..n - 1];
    }
  }

  function HealthIn(mem: map<int, Word>, d: Device): Health
    requires InSnap(mem, d)
  {
    Health(mem[d.base], mem[d.base + 1])
  }

  function Words(answers: seq<Result<seq<Word>>>): (r: seq<seq<Word>>)
    requires forall j :: 0 <= j < |answers| ==> answers[j].Ok?
    ensures |r| == |answers| && forall j :: 0 <= j < |r| ==> r[j] == answers[j].value
  {
    seq(|answers|, j requires 0 <= j < |answers| && answers[j].Ok? => answers[j].value)
  }

  class Reader {
    const ranges: seq<Span>
    const codes: seq<string>
    const blocks: map<string, Device>
    const diagBase: int
    const isMaster: bool
    var linkOk: bool
    var counter: map<string, Option<Word>>
    var emitted: map<string, seq<Sample>>
    var health: map<string, Health>
    var diagWords: seq<Word>
    var heartbeat: Pulse
    var mirror: Pulse

    constructor (ranges: seq<Span>, codes: seq<string>, blocks: map<string, Device>, diagBase: int, isMaster: bool, down: Word)
      requires forall i :: 0 <= i < |codes| ==> codes[i] in blocks
      requires forall i, j :: 0 <= i < j < |codes| ==> codes[i] != codes[j]
      requires forall k :: k in blocks ==> k in codes && ValueWords(blocks[k].items) <= VALUE_WORDS
      ensures Valid() && this.ranges == ranges && this.codes == codes && this.blocks == blocks && !linkOk
      ensures this.diagBase == diagBase && this.isMaster == isMaster
      ensures diagWords == [] && heartbeat == Pulse(None, 0) && mirror == Pulse(None, 0)
      ensures forall k :: k in blocks ==>
                            && k in counter && counter[k] == None && k in emitted && emitted[k] == []
                            && k in health && health[k] == Health(down, 0)
    {
      this.ranges, this.codes, this.blocks, linkOk := ranges, codes, blocks, false;
      this.diagBase, this.isMaster := diagBase, isMaster;
      counter, emitted := map k | k in blocks :: None, map k | k in blocks :: [];
      health := map k | k in blocks :: Health(down, 0);
      diagWords, heartbeat, mirror := [], Pulse(None, 0), Pulse(None, 0);
    }

    ghost predicate Valid()
      reads this
    {
      && (forall i :: 0 <= i < |codes| ==> codes[i] in blocks && codes[i] in counter && codes[i] in emitted && codes[i] in health)
      && (forall i, j :: 0 <= i < j < |codes| ==> codes[i] != codes[j])
      && (forall k :: k in blocks ==> k in codes && ValueWords(blocks[k].items) <= VALUE_WORDS)
    }

    /** `_update_device` */
    method UpdateDevice(code: string, mem: map<int, Word>)
      requires Valid() && code in blocks && InSnap(mem, blocks[code])
      modifies this`counter, this`emitted, this`health
      ensures Valid()
      ensures Follows(old(counter[code]), old(emitted[code]), counter[code], emitted[code], mem, blocks[code])
      ensures health == old(health)[code := HealthIn(mem, blocks[code])]
      ensures forall k :: k != code && k in old(counter) && k in old(emitted) ==>
                            && k in counter && counter[k] == old(counter[k])
                            && k in emitted && emitted[k] == old(emitted[k])
    {
      hide Decoded;
      var d := blocks[code];
      health := health[code := Health(mem[d.base], mem[d.base + 1])];
      var c := mem[d.base + 8];
      if c == 0 || counter[code] == Some(c) { return; }
      counter := counter[code := Some(c)];
      emitted := emitted[code := emitted[code] + [Decoded(d.items, SnapValues(mem, d))]];
    }

    /** `poll`: one answer, or failure, for each range; a failure ends the poll. */
    method Poll(answers: seq<Result<seq<Word>>>, now: int)
      requires Valid() && |answers| == |ranges|
      requires forall j :: 0 <= j < |answers| && answers[j].Ok? ==> |answers[j].value| == ranges[j].hi - ranges[j].lo
      requires forall k :: k in blocks ==> WithinSome(Block(blocks[k]), ranges)
      modifies this
      ensures Valid() && (linkOk <==> forall j :: 0 <= j < |answers| ==> answers[j].Ok?)
      ensures !linkOk ==> counter == old(counter) && emitted == old(emitted) && health == old(health)
      ensures !linkOk ==> diagWords == old(diagWords) && heartbeat == old(heartbeat) && mirror == old(mirror)
      ensures linkOk ==>
                var mem := Assembled(ranges, Words(answers));
                && diagWords == DiagIn(mem, diagBase)
                && heartbeat == Noticed(old(heartbeat), At(mem, diagBase), now)
                && mirror == (if isMaster then Noticed(old(mirror), At(mem, diagBase + 2), now) else old(mirror))
                && forall k :: k in blocks ==>
                                 && k in old(counter) && k in old(emitted) && k in counter && k in emitted
                                 && Follows(old(counter[k]), old(emitted[k]), counter[k], emitted[k], mem, blocks[k])
                                 && InSnap(mem, blocks[k]) && k in health && health[k] == HealthIn(mem, blocks[k])
    {
      hide Follows, Updated, FromAnswer, WithinSome, DiagIn, InSnap, Assembled, HealthIn;
      var read := Assemble(ranges, answers);
      linkOk := read.Some?;
      if !linkOk { return; }
      var mem := read.value;
      diagWords := DiagIn(mem, diagBase);
      if heartbeat.word != At(mem, diagBase) { heartbeat := Pulse(At(mem, diagBase), now); }
      if isMaster && mirror.word != At(mem, diagBase + 2) { mirror := Pulse(At(mem, diagBase + 2), now); }
      Update(mem, Words(answers));
    }

    method Update(mem: map<int, Word>, got: seq<seq<Word>>)
      requires Valid() && |got| == |ranges| && mem == Assembled(ranges, got)
      requires forall j :: 0 <= j < |got| ==> |got[j]| == ranges[j].hi - ranges[j].lo
      requires forall k :: k in blocks ==> WithinSome(Block(blocks[k]), ranges)
      modifies this`counter, this`emitted, this`health
      ensures Valid()
      ensures forall k :: k in blocks ==>
                            && k in old(counter) && k in old(emitted) && k in counter && k in emitted
                            && Follows(old(counter[k]), old(emitted[k]), counter[k], emitted[k], mem, blocks[k])
                            && InSnap(mem, blocks[k]) && k in health && health[k] == HealthIn(mem, blocks[k])
    {
      hide Follows, Updated, InSnap, WithinSome, Assembled, HealthIn;
      for i := 0 to |codes|
        invariant Valid()
        invariant forall j :: 0 <= j < i ==>
                                && codes[j] in old(counter) && codes[j] in old(emitted)
                                && Follows(old(counter)[codes[j]], old(emitted)[codes[j]], counter[codes[j]],
                                           emitted[codes[j]], mem, blocks[codes[j]])
                                && InSnap(mem, blocks[codes[j]]) && health[codes[j]] == HealthIn(mem, blocks[codes[j]])
        invariant forall j :: i <= j < |codes| ==>
                                && codes[j] in old(counter) && counter[codes[j]] == old(counter)[codes[j]]
                                && codes[j] in old(emitted) && emitted[codes[j]] == old(emitted)[codes[j]]
      {
        BlockAssembled(ranges, got, blocks[codes[i]]);
        UpdateDevice(codes[i], mem);
      }
    }
  }

  /** The memory put together from the answers, unless one failed. */
  method Assemble(ranges: seq<Span>, answers: seq<Result<seq<Word>>>) returns (mem: Option<map<int, Word>>)
    requires |answers| == |ranges|
    ensures mem.Some? <==> forall j :: 0 <= j < |answers| ==> answers[j].Ok?
    ensures mem.Some? ==> mem.value == Assembled(ranges, Words(answers))
  {
    hide FromAnswer;
    var read: map<int, Word> := map[];
    for j := 0 to |ranges|
      invariant forall i :: 0 <= i < j ==> answers[i].Ok?
      invariant read == Assembled(ranges, Words(answers[..j]))
    {
      if answers[j].Err? { return None; }
      read := read + FromAnswer(ranges[j], answers[j].value);
      assert Words(answers[..j + 1])[..j] == Words(answers[..j]);
    }
    assert answers[..|answers|] == answers;
    mem := Some(read);
  }

  lemma {:induction false} RangeAssembled(ranges: seq<Span>, got: seq<seq<Word>>, j: nat, x: int)
    requires |got| <= |ranges| && j < |got| && |got[j]| == ranges[j].hi - ranges[j].lo && In(x, ranges[j])
    ensures x in Assembled(ranges, got)
  {
    if j < |got| - 1 { RangeAssembled(ranges, got[..|got| - 1], j, x); }
  }

  lemma BlockAssembled(ranges: seq<Span>, got: seq<seq<Word>>, d: Device)
    requires |got| == |ranges| && WithinSome(Block(d), ranges)
    requires forall j :: 0 <= j < |got| ==> |got[j]| == ranges[j].hi - ranges[j].lo
    ensures InSnap(Assembled(ranges, got), d)
  {
    var j :| 0 <= j < |ranges| && Within(Block(d), ranges[j]);
    forall x | d.base <= x < d.base + BLOCK_USED
      ensures x in Assembled(ranges, got)
    {
      RangeAssembled(ranges, got, j, x);
    }
  }

  // ---------- the reader and the acquisition model ----------

  function Answered(c: Config, s: State, got: seq<seq<Word>>, a: Action): (r: seq<seq<Word>>)
    requires |got| <= |c.ranges| && |s.words| == c.size && InBounds(c)
    ensures |r| <= |c.ranges|
  {
    match a
    case ReadRange => if |got| < |c.ranges| then got + [s.words[c.ranges[|got|].lo..c.ranges[|got|].hi]] else got
    case ReadFails => []
    case Finish => if |got| == |c.ranges| then [] else got
    case _ => got
  }

  /** The answers to the requests of the poll under way. */
  function Answers(c: Config, acts: seq<Action>): (r: seq<seq<Word>>)
    requires InBounds(c)
    ensures |r| <= |c.ranges|
  {
    if acts == [] then []
    else
      var n := |acts| - 1;
      SizeStays(c, acts[..n]);
      Answered(c, Run(c, acts[..n]), Answers(c, acts[..n]), acts[n])
  }

  predicate InBounds(c: Config) {
    forall j :: 0 <= j < |c.ranges| ==> 0 <= c.ranges[j].lo <= c.ranges[j].hi <= c.size
  }

  lemma {:induction false} SizeStays(c: Config, acts: seq<Action>)
    ensures |Run(c, acts).words| == c.size
  {
    if acts != [] {
      SizeStays(c, acts[..|acts| - 1]);
      hide Run;
    }
  }

  lemma AssembledSnoc(ranges: seq<Span>, got: seq<seq<Word>>, words: seq<Word>)
    requires |got| < |ranges| && 0 <= ranges[|got|].lo <= ranges[|got|].hi <= |words|
    ensures var r := ranges[|got|];
            Assembled(ranges, got + [words[r.lo..r.hi]]) == Assembled(ranges, got) + Copied(words, r)
  {
    var r := ranges[|got|];
    assert (got + [words[r.lo..r.hi]])[..|got|] == got;
    AnswerIsCopy(words, r);
  }

  ghost predicate Shows(c: Config, s: State, got: seq<seq<Word>>) {
    && |got| == s.next <= |c.ranges| && s.snap == Assembled(c.ranges, got)
    && forall j :: 0 <= j < |got| ==> |got[j]| == c.ranges[j].hi - c.ranges[j].lo
  }

  lemma StepShows(c: Config, s: State, got: seq<seq<Word>>, a: Action)
    requires |s.words| == c.size && InBounds(c) && Shows(c, s, got)
    ensures Shows(c, Step(c, s, a), Answered(c, s, got, a))
  {
    hide Assembled, Copied, Updated, AfterPoll;
    NothingAssembled(c.ranges);
    if a.ReadRange? && |got| < |c.ranges| { AssembledSnoc(c.ranges, got, s.words); }
  }

  /** In every run the snapshot is what the reader assembles from the answers it has got. */
  lemma {:induction false} SnapshotIsAssembled(c: Config, acts: seq<Action>)
    requires InBounds(c)
    ensures Shows(c, Run(c, acts), Answers(c, acts))
  {
    NothingAssembled(c.ranges);
    if acts != [] {
      var n := |acts| - 1;
      hide Shows, Step;
      SnapshotIsAssembled(c, acts[..n]);
      SizeStays(c, acts[..n]);
      StepShows(c, Run(c, acts[..n]), Answers(c, acts[..n]), acts[n]);
    }
  }

  lemma NothingAssembled(ranges: seq<Span>)
    ensures Assembled(ranges, []) == map[]
  {
  }

  lemma FinishUpdates(c: Config, acts: seq<Action>, k: string)
    requires k in c.devices && k in Run(c, acts).tracks && Run(c, acts).next == |c.ranges|
    ensures k in Run(c, acts + [Finish]).tracks
    ensures var t, u := Updated(Run(c, acts).tracks[k], Run(c, acts).snap, c.devices[k]), Run(c, acts + [Finish]).tracks[k];
            && u.counter == t.counter && u.emitted == t.emitted
            && (InSnap(Run(c, acts).snap, c.devices[k]) ==> u.health == Some(HealthIn(Run(c, acts).snap, c.devices[k])))
  {
    assert (acts + [Finish])[..|acts|] == acts;
    hide Updated, InSnap;
  }

  lemma Tracked(c: Config, acts: seq<Action>, k: string)
    requires Valid(c) && k in c.devices
    ensures k in Run(c, acts).tracks
  {
    hide DeviceOk, Run, Valid;
    RunKeeps(c, acts);
  }

  lemma BlockFits(c: Config, k: string)
    requires Valid(c) && k in c.devices
    ensures WithinSome(Block(c.devices[k]), c.ranges)
  {
    assert DeviceFits(c, c.devices[k]);
    hide WithinSome;
  }

  /** When all ranges are read: what `poll` does to the counter, the samples and the health of a device, given those
      answers, is what the model of the acquisition does; so its theorems are about the reader. */
  lemma PollIsFinish(c: Config, acts: seq<Action>, k: string, after: Option<Word>, more: seq<Sample>)
    requires Valid(c) && InBounds(c) && k in c.devices && |Answers(c, acts)| == |c.ranges|
    requires k in Run(c, acts).tracks ==>
               var t := Run(c, acts).tracks[k];
               Follows(t.counter, ValuesOf(t.emitted), after, more, Assembled(c.ranges, Answers(c, acts)), c.devices[k])
    ensures k in Run(c, acts + [Finish]).tracks && InSnap(Assembled(c.ranges, Answers(c, acts)), c.devices[k])
    ensures var t := Run(c, acts + [Finish]).tracks[k];
            && t.counter == after && ValuesOf(t.emitted) == more
            && t.health == Some(HealthIn(Assembled(c.ranges, Answers(c, acts)), c.devices[k]))
  {
    hide Valid, Updated, Answers, InBounds, Run, Finished, Assembled, InSnap, HealthIn, WithinSome;
    SnapshotIsAssembled(c, acts);
    Tracked(c, acts, k);
    BlockFits(c, k);
    BlockAssembled(c.ranges, Answers(c, acts), c.devices[k]);
    FinishUpdates(c, acts, k);
  }
}
