// The PLC side of acquisition: one device is read group by group, with retries, and its values, status
// and update counter are written to its block of the PLC's word memory.

module Polling {
  import opened Outcomes
  import opened Modbus
  import opened ValueCodec

  /** A configured register value; fc is 3 or 4. */
  datatype Item = Item(key: string, fc: int, address: nat, typ: ValueType, scale: real)

  /** The registers lo <= x < hi of one function code. */
  datatype Group = Group(lo: nat, hi: nat)

  function End(it: Item): nat {
    it.address + WordCount(it.typ)
  }

  // ---------- which registers to read ----------

  function Widened(groups: map<int, Group>, it: Item): map<int, Group> {
    if it.fc in groups then
      var g := groups[it.fc];
      groups[it.fc := Group(if it.address < g.lo then it.address else g.lo, if End(it) > g.hi then End(it) else g.hi)]
    else groups[it.fc := Group(it.address, End(it))]
  }

  function GroupsOf(items: seq<Item>): map<int, Group> {
    if items == [] then map[] else Widened(GroupsOf(items[..|items| - 1]), items[|items| - 1])
  }

  /** `_read_groups`: one read for each function code. */
  method ReadGroups(items: seq<Item>) returns (groups: map<int, Group>)
    ensures groups == GroupsOf(items)
  {
    groups := map[];
    for i := 0 to |items|
      invariant groups == GroupsOf(items[..i])
    {
      assert items[..i + 1][..i] == items[..i];
      groups := Widened(groups, items[i]);
    }
    assert items[..|items|] == items;
  }

  predicate HoldsItem(groups: map<int, Group>, it: Item) {
    it.fc in groups && groups[it.fc].lo <= it.address && End(it) <= groups[it.fc].hi
  }

  ghost predicate StartsAt(items: seq<Item>, fc: int, lo: nat) {
    exists i :: 0 <= i < |items| && items[i].fc == fc && items[i].address == lo
  }

  ghost predicate EndsAt(items: seq<Item>, fc: int, hi: nat) {
    exists i :: 0 <= i < |items| && items[i].fc == fc && End(items[i]) == hi
  }

  ghost predicate Tight(groups: map<int, Group>, items: seq<Item>) {
    && (forall i :: 0 <= i < |items| ==> HoldsItem(groups, items[i]))
    && (forall fc :: fc in groups ==> StartsAt(items, fc, groups[fc].lo) && EndsAt(items, fc, groups[fc].hi))
  }

  lemma EdgesMore(items: seq<Item>, it: Item, fc: int, x: nat)
    ensures StartsAt(items, fc, x) || (it.fc == fc && it.address == x) ==> StartsAt(items + [it], fc, x)
    ensures EndsAt(items, fc, x) || (it.fc == fc && End(it) == x) ==> EndsAt(items + [it], fc, x)
  {
    var more := items + [it];
    assert more[|items|] == it;
    if StartsAt(items, fc, x) {
      var i :| 0 <= i < |items| && items[i].fc == fc && items[i].address == x;
      assert more[i] == items[i];
    }
    if EndsAt(items, fc, x) {
      var i :| 0 <= i < |items| && items[i].fc == fc && End(items[i]) == x;
      assert more[i] == items[i];
    }
  }

  lemma WidenedIsTight(groups: map<int, Group>, items: seq<Item>, it: Item)
    requires Tight(groups, items)
    ensures Tight(Widened(groups, it), items + [it])
  {
    hide StartsAt, EndsAt;
    var wide, more := Widened(groups, it), items + [it];
    forall i | 0 <= i < |more|
      ensures HoldsItem(wide, more[i])
    {
      if i < |items| { assert HoldsItem(groups, items[i]); }
    }
    forall fc | fc in wide
      ensures StartsAt(more, fc, wide[fc].lo) && EndsAt(more, fc, wide[fc].hi)
    {
      EdgesMore(items, it, fc, wide[fc].lo);
      EdgesMore(items, it, fc, wide[fc].hi);
    }
  }

  /** There is a group for each function code in use; it holds every register of its items, and both its
      ends belong to one. */
  lemma {:induction false} GroupsAreTight(items: seq<Item>)
    ensures Tight(GroupsOf(items), items)
  {
    hide Widened, StartsAt, EndsAt, HoldsItem;
    if items != [] {
      var n := |items| - 1;
      GroupsAreTight(items[..n]);
      hide Tight;
      WidenedIsTight(GroupsOf(items[..n]), items[..n], items[n]);
      assert items == items[..n] + [items[n]];
    }
  }

  // ---------- from registers to value words ----------

  /** What a device answers for each register: its state at the time of the read. */
  type Registers = (int, nat) -> Word

  function Slice(regs: Registers, fc: int, lo: nat, count: nat): (ws: seq<Word>)
    ensures |ws| == count && forall i :: 0 <= i < count ==> ws[i] == regs(fc, lo + i)
  {
    seq(count, i requires 0 <= i < count => regs(fc, lo + i))
  }

  function ValueWords(items: seq<Item>): nat {
    if items == [] then 0 else ValueWords(items[..|items| - 1]) + WordCount(items[|items| - 1].typ)
  }

  ghost predicate Answered(items: seq<Item>, answers: map<int, (nat, seq<Word>)>) {
    forall i :: 0 <= i < |items| ==>
                  && items[i].fc in answers && answers[items[i].fc].0 <= items[i].address
                  && End(items[i]) <= answers[items[i].fc].0 + |answers[items[i].fc].1|
  }

  function ItemWords(it: Item, read: (nat, seq<Word>)): seq<Word>
    requires read.0 <= it.address && End(it) <= read.0 + |read.1|
  {
    read.1[it.address - read.0..End(it) - read.0]
  }

  function Packed(items: seq<Item>, answers: map<int, (nat, seq<Word>)>): seq<Word>
    requires Answered(items, answers)
  {
    if items == [] then []
    else Packed(items[..|items| - 1], answers) + ItemWords(items[|items| - 1], answers[items[|items| - 1].fc])
  }

  /** `_pack_values` */
  method PackValues(items: seq<Item>, answers: map<int, (nat, seq<Word>)>) returns (out: seq<Word>)
    requires Answered(items, answers)
    ensures out == Packed(items, answers)
  {
    out := [];
    for i := 0 to |items|
      invariant out == Packed(items[..i], answers)
    {
      assert items[..i + 1][..i] == items[..i];
      var (start, words) := answers[items[i].fc];
      var off := items[i].address - start;
      out := out + words[off..off + WordCount(items[i].typ)];
    }
    assert items[..|items|] == items;
  }

  /** The answers of a device: each group answered from its registers. */
  ghost predicate ReadFrom(items: seq<Item>, answers: map<int, (nat, seq<Word>)>, regs: Registers) {
    var groups := GroupsOf(items);
    forall fc :: fc in groups ==>
                   fc in answers && answers[fc] == (groups[fc].lo, Slice(regs, fc, groups[fc].lo, Extent(groups[fc])))
  }

  function Extent(g: Group): nat {
    if g.lo <= g.hi then g.hi - g.lo else 0
  }

  lemma ReadsAnswer(items: seq<Item>, answers: map<int, (nat, seq<Word>)>, regs: Registers)
    requires ReadFrom(items, answers, regs)
    ensures Answered(items, answers)
  {
    GroupsAreTight(items);
    hide GroupsOf;
    forall i | 0 <= i < |items|
      ensures items[i].fc in answers && answers[items[i].fc].0 <= items[i].address
      ensures End(items[i]) <= answers[items[i].fc].0 + |answers[items[i].fc].1|
    {
      assert HoldsItem(GroupsOf(items), items[i]);
    }
  }

  /** The register words of the items, in configuration order. */
  function Wanted(items: seq<Item>, regs: Registers): seq<Word> {
    if items == [] then []
    else
      var it := items[|items| - 1];
      Wanted(items[..|items| - 1], regs) + Slice(regs, it.fc, it.address, WordCount(it.typ))
  }

  lemma {:induction false} PackedAre(items: seq<Item>, answers: map<int, (nat, seq<Word>)>, regs: Registers)
    requires Answered(items, answers)
    requires forall i, k: nat :: 0 <= i < |items| && k < |answers[items[i].fc].1| ==>
                                   answers[items[i].fc].1[k] == regs(items[i].fc, answers[items[i].fc].0 + k)
    ensures Packed(items, answers) == Wanted(items, regs) && |Packed(items, answers)| == ValueWords(items)
  {
    if items != [] {
      var n := |items| - 1;
      var it := items[n];
      PackedAre(items[..n], answers, regs);
      assert ItemWords(it, answers[it.fc]) == Slice(regs, it.fc, it.address, WordCount(it.typ));
    }
  }

  /** Reading in groups and cutting the answers up again yields exactly each item's own registers. */
  lemma PackedAreTheRegisters(items: seq<Item>, answers: map<int, (nat, seq<Word>)>, regs: Registers)
    requires ReadFrom(items, answers, regs)
    ensures Answered(items, answers)
    ensures Packed(items, answers) == Wanted(items, regs) && |Packed(items, answers)| == ValueWords(items)
  {
    ReadsAnswer(items, answers, regs);
    GroupsAreTight(items);
    hide GroupsOf;
    forall i, k: nat | 0 <= i < |items| && k < |answers[items[i].fc].1|
      ensures answers[items[i].fc].1[k] == regs(items[i].fc, answers[items[i].fc].0 + k)
    {
      assert HoldsItem(GroupsOf(items), items[i]);
    }
    PackedAre(items, answers, regs);
  }

  // ---------- diagnostics ----------

  /** The part of a device's diagnostics that reaches its block. */
  datatype Diag = Diag(counter: nat, fails: nat)

  /** `(counter + 1) & 0xFFFF or 1` */
  function NextCounter(c: nat): nat {
    var n := (c + 1) % 0x10000;
    if n == 0 then 1 else n
  }

  function Noted(d: Diag, ok: bool): Diag {
    if ok then Diag(NextCounter(d.counter), 0) else d.(fails := d.fails + 1)
  }

  /** The diagnostics after polls that went like this. */
  function DiagAfter(outcomes: seq<bool>): Diag {
    if outcomes == [] then Diag(0, 0) else Noted(DiagAfter(outcomes[..|outcomes| - 1]), outcomes[|outcomes| - 1])
  }

  /** How many polls have failed since the last that did not. */
  function Trailing(outcomes: seq<bool>): (n: nat)
    ensures n <= |outcomes| && (forall i :: |outcomes| - n <= i < |outcomes| ==> !outcomes[i])
    ensures n < |outcomes| ==> outcomes[|outcomes| - 1 - n]
  {
    if outcomes == [] || outcomes[|outcomes| - 1] then 0 else 1 + Trailing(outcomes[..|outcomes| - 1])
  }

  function Successes(outcomes: seq<bool>): nat {
    if outcomes == [] then 0
    else Successes(outcomes[..|outcomes| - 1]) + if outcomes[|outcomes| - 1] then 1 else 0
  }

  /** Over any polls the failure count is the number of failed ones at the end, and the counter that of as many successes. */
  lemma {:induction false} DiagCountsTheFailures(outcomes: seq<bool>)
    ensures DiagAfter(outcomes).fails == Trailing(outcomes)
    ensures DiagAfter(outcomes).counter == Counter(Successes(outcomes))
  {
    hide NextCounter;
    if outcomes != [] { DiagCountsTheFailures(outcomes[..|outcomes| - 1]); }
  }

  /** The counter after n successful polls. */
  function Counter(n: nat): nat {
    if n == 0 then 0 else NextCounter(Counter(n - 1))
  }

  /** The counter runs through 1..65535 and never comes back to 0. */
  lemma {:induction false} CounterCycles(n: nat)
    ensures Counter(n) == if n == 0 then 0 else (n - 1) % 0xFFFF + 1
  {
    hide NextCounter;
    if n > 0 {
      CounterCycles(n - 1);
      assert Counter(n) == NextCounter(Counter(n - 1));
      hide Counter;
      if n > 1 { CycleStep(n - 2); } else { FirstCount(); }
    }
  }

  lemma FirstCount()
    ensures NextCounter(0) == 1
  {
  }

  lemma CycleStep(k: nat)
    ensures (k + 1) % 0xFFFF + 1 == NextCounter(k % 0xFFFF + 1)
  {
    ModStep(k, 0xFFFF);
  }

  lemma ModStep(k: nat, m: nat)
    requires m > 1
    ensures (k + 1) % m == if k % m == m - 1 then 0 else k % m + 1
  {
    assert k == k / m * m + k % m;
    if k % m == m - 1 {
      assert k + 1 == (k / m + 1) * m;
      MultipleHasNoRest(k / m + 1, m);
    } else {
      assert k + 1 == k / m * m + (k % m + 1);
      RestOfSum(k / m, k % m + 1, m);
    }
  }

  lemma MultipleHasNoRest(q: int, m: int)
    requires m > 0
    ensures q * m % m == 0
  {
    RestOfSum(q, 0, m);
  }

  lemma RestOfSum(q: int, r: int, m: int)
    requires 0 <= r < m
    ensures (q * m + r) % m == r
  {
    var x := q * m + r;
    var d := x / m - q;
    assert x == x / m * m + x % m;
    assert d * m == r - x % m by { assert d * m == x / m * m - q * m; }
    NoMultiple(d, m);
  }

  lemma NoMultiple(d: int, m: int)
    requires m > 0
    ensures d >= 1 ==> d * m >= m
    ensures d <= -1 ==> d * m <= -m
  {
  }

  /** Two polls leave the same counter exactly when a multiple of 65535 polls lies between them. */
  lemma SameCounter(m: nat, n: nat)
    requires m <= n
    ensures Counter(m) == Counter(n) <==> m == n || (m > 0 && (n - m) % 0xFFFF == 0)
  {
    CounterCycles(m);
    CounterCycles(n);
    hide Counter;
    if m > 0 { SameRest(m - 1, n - 1, 0xFFFF); }
  }

  lemma SameRest(a: nat, b: nat, m: nat)
    requires a <= b && m > 0
    ensures a % m == b % m <==> (b - a) % m == 0
  {
    if a % m == b % m { DifferenceOf(a, b, m); }
    if (b - a) % m == 0 { SumOf(a, b - a, m); }
  }

  lemma DifferenceOf(a: nat, b: nat, m: nat)
    requires m > 0 && a % m == b % m
    ensures (b - a) % m == 0
  {
    var q, r := b / m, a / m;
    assert b == q * m + b % m && a == r * m + a % m;
    assert b - a == (q - r) * m by { assert (q - r) * m == q * m - r * m; }
    MultipleHasNoRest(q - r, m);
  }

  lemma SumOf(a: nat, d: nat, m: nat)
    requires m > 0 && d % m == 0
    ensures a % m == (a + d) % m
  {
    var q, r := a / m, d / m;
    assert a == q * m + a % m && d == r * m;
    assert a + d == (q + r) * m + a % m by { assert (q + r) * m == q * m + r * m; }
    RestOfSum(q + r, a % m, m);
  }

  // ---------- the word memory ----------

  const VALUE_WORDS := 6
  const BLOCK_USED := 9

  function Stored(mem: seq<Word>, addr: nat, ws: seq<Word>): (r: seq<Word>)
    requires addr + |ws| <= |mem|
    ensures |r| == |mem|
    ensures forall x :: 0 <= x < |mem| ==> r[x] == if addr <= x < addr + |ws| then ws[x - addr] else mem[x]
  {
    mem[..addr] + ws + mem[addr + |ws|..]
  }

  function Masked(values: seq<int>): (ws: seq<Word>)
    ensures |ws| == |values| && forall i :: 0 <= i < |values| ==> ws[i] == values[i] % 0x10000
  {
    seq(|values|, i requires 0 <= i < |values| => values[i] % 0x10000)
  }

  class PlcMemory {
    const words: array<Word>

    constructor (size: nat)
      ensures words.Length == size && fresh(words) && forall x :: 0 <= x < size ==> words[x] == 0
    {
      words := new Word[size](i => 0);
    }

    method Write(addr: nat, values: seq<int>)
      requires addr + |values| <= words.Length
      modifies words
      ensures words[..] == Stored(old(words[..]), addr, Masked(values))
    {
      for i := 0 to |values|
        invariant forall x :: 0 <= x < words.Length ==>
                                words[x] == if addr <= x < addr + i then values[x - addr] % 0x10000 else old(words[x])
      {
        var v := values[i] % 0x10000;
        if words[addr + i] != v { words[addr + i] := v; }
      }
    }

    method Read(addr: nat, count: nat) returns (ws: seq<Word>)
      requires addr + count <= words.Length
      ensures ws == words[addr..addr + count]
    {
      ws := words[addr..addr + count];
    }
  }

  // ---------- one poll ----------

  /** The first attempt that succeeds; there is one attempt more than there are retries. */
  function FirstOk(attempts: seq<Result<seq<Word>>>): Option<seq<Word>> {
    if attempts == [] then None
    else if attempts[0].Ok? then Some(attempts[0].value)
    else FirstOk(attempts[1..])
  }

  function Tried(attempts: seq<Result<seq<Word>>>, retries: nat): seq<Result<seq<Word>>> {
    if |attempts| > retries then attempts[..retries + 1] else attempts
  }

  /** A group is read if and only if one of its first `retries + 1` attempts succeeds, and then by the first that does. */
  lemma {:induction false} FirstSuccessCounts(attempts: seq<Result<seq<Word>>>, retries: nat, ws: seq<Word>)
    ensures FirstOk(Tried(attempts, retries)) == Some(ws)
            <==> exists i :: 0 <= i < |attempts| && i <= retries && attempts[i] == Ok(ws) && NoneOk(attempts, i)
    decreases |attempts|
  {
    var tried := Tried(attempts, retries);
    if attempts != [] && !attempts[0].Ok? && retries > 0 {
      var rest := attempts[1..];
      assert tried[1..] == Tried(rest, retries - 1);
      FirstSuccessCounts(rest, retries - 1, ws);
      if FirstOk(tried) == Some(ws) {
        var i :| 0 <= i < |rest| && i <= retries - 1 && rest[i] == Ok(ws) && NoneOk(rest, i);
        assert attempts[i + 1] == Ok(ws) && NoneOk(attempts, i + 1);
      }
      forall i | 0 <= i < |attempts| && i <= retries && attempts[i] == Ok(ws) && NoneOk(attempts, i)
        ensures FirstOk(tried) == Some(ws)
      {
        assert rest[i - 1] == Ok(ws) && NoneOk(rest, i - 1);
      }
    } else if attempts != [] {
      assert NoneOk(attempts, 0);
    }
  }

  ghost predicate NoneOk(attempts: seq<Result<seq<Word>>>, i: nat)
    requires i <= |attempts|
  {
    forall j :: 0 <= j < i ==> !attempts[j].Ok?
  }

  function Capped(fails: nat): Word {
    if fails < 0xFFFF then fails else 0xFFFF
  }

  /** What a poll leaves in the memory: values only if every group was read, and the counter last. */
  function AfterPoll(mem: seq<Word>, base: nat, values: Option<seq<Word>>, d: Diag, status: Word): (r: seq<Word>)
    requires base + BLOCK_USED <= |mem| && (values.Some? ==> |values.value| <= VALUE_WORDS)
    ensures |r| == |mem|
  {
    var withValues := if values.Some? then Stored(mem, base + 2, values.value) else mem;
    var withStatus := Stored(withValues, base, [status, Capped(d.fails)]);
    if values.Some? then Stored(withStatus, base + 8, [d.counter % 0x10000]) else withStatus
  }

  /** A poll touches no word outside the used part of its block; a failed one neither values nor counter. */
  lemma PollStaysInBlock(mem: seq<Word>, base: nat, values: Option<seq<Word>>, d: Diag, status: Word)
    requires base + BLOCK_USED <= |mem| && (values.Some? ==> |values.value| <= VALUE_WORDS)
    ensures var r := AfterPoll(mem, base, values, d, status);
            && (forall x :: 0 <= x < |mem| && !(base <= x < base + BLOCK_USED) ==> r[x] == mem[x])
            && (values.None? ==> forall x :: base + 2 <= x < base + BLOCK_USED ==> r[x] == mem[x])
            && (values.Some? ==> r[base + 2..base + 2 + |values.value|] == values.value && r[base + 8] == d.counter % 0x10000)
            && r[base] == status && r[base + 1] == Capped(d.fails)
  {
  }

  class Point {
    const items: seq<Item>
    const base: nat
    const retries: nat
    var diag: Diag

    ghost predicate Fits(memory: PlcMemory)
    {
      && base + BLOCK_USED <= memory.words.Length && ValueWords(items) <= VALUE_WORDS
      && forall i :: 0 <= i < |items| ==> items[i].fc == 3 || items[i].fc == 4
    }

    constructor (items: seq<Item>, base: nat, retries: nat)
      ensures this.items == items && this.base == base && this.retries == retries && diag == Diag(0, 0)
    {
      this.items, this.base, this.retries, diag := items, base, retries, Diag(0, 0);
    }

    /** `BusScanner.poll`: `link` gives the outcome of each attempt for each function code, and `status` the
        device status as the diagnostics judge it afterwards. */
    method Poll(memory: PlcMemory, link: map<int, seq<Result<seq<Word>>>>, status: Word) returns (ok: bool)
      requires Fits(memory)
      requires forall fc :: fc in GroupsOf(items) ==>
                              fc in link && Answers(Tried(link[fc], retries), Extent(GroupsOf(items)[fc]))
      modifies this, memory.words
      ensures ok <==> AllRead(items, link, retries)
      ensures diag == Noted(old(diag), ok)
      ensures diag.fails == if ok then 0 else old(diag).fails + 1
      ensures diag.counter == if ok then NextCounter(old(diag).counter) else old(diag).counter
      ensures !ok ==> memory.words[..] == AfterPoll(old(memory.words[..]), base, None, diag, status)
      ensures ok ==>
                && Answered(items, Collected(items, link, retries))
                && |Packed(items, Collected(items, link, retries))| <= VALUE_WORDS
                && memory.words[..] ==
                   AfterPoll(old(memory.words[..]), base, Some(Packed(items, Collected(items, link, retries))), diag, status)
    {
      var answers := ReadAll(items, link, retries);
      if answers.None? {
        diag := Noted(diag, false);
        WriteStatus(memory, status);
        return false;
      }
      diag := Noted(diag, true);
      AnswersSuffice(items, link, retries);
      var values := PackValues(items, answers.value);
      PackedLength(items, answers.value);
      MaskedWords(values);
      memory.Write(base + 2, values);
      WriteStatus(memory, status);
      memory.Write(base + 8, [diag.counter]);
      assert Masked([diag.counter]) == [diag.counter % 0x10000];
      ok := true;
    }

    method WriteStatus(memory: PlcMemory, status: Word)
      requires base + 2 <= memory.words.Length
      modifies memory.words
      ensures memory.words[..] == Stored(old(memory.words[..]), base, [status, Capped(diag.fails)])
    {
      memory.Write(base, [status, if diag.fails < 0xFFFF then diag.fails else 0xFFFF]);
      assert Masked([status, if diag.fails < 0xFFFF then diag.fails else 0xFFFF]) == [status, Capped(diag.fails)];
    }
  }

  method TryRead(attempts: seq<Result<seq<Word>>>, retries: nat) returns (res: Option<seq<Word>>)
    ensures res == FirstOk(Tried(attempts, retries))
  {
    var tried := Tried(attempts, retries);
    var k := 0;
    while k < |tried|
      invariant 0 <= k <= |tried| && FirstOk(tried) == FirstOk(tried[k..])
    {
      if tried[k].Ok? { return Some(tried[k].value); }
      assert tried[k..][1..] == tried[k + 1..];
      k := k + 1;
    }
    return None;
  }

  lemma MaskedWords(ws: seq<Word>)
    ensures Masked(ws) == ws
  {
  }

  lemma {:induction false} GroupCodes(items: seq<Item>)
    requires forall i :: 0 <= i < |items| ==> items[i].fc == 3 || items[i].fc == 4
    ensures forall fc :: fc in GroupsOf(items) ==> fc == 3 || fc == 4
  {
    if items != [] { GroupCodes(items[..|items| - 1]); }
  }

  lemma FirstOkIsAnswer(attempts: seq<Result<seq<Word>>>, count: nat)
    requires Answers(attempts, count) && FirstOk(attempts).Some?
    ensures |FirstOk(attempts).value| == count
  {
    if !attempts[0].Ok? {
      assert forall k :: 0 <= k < |attempts[1..]| ==> attempts[1..][k] == attempts[k + 1];
      FirstOkIsAnswer(attempts[1..], count);
    }
  }

  ghost predicate AllRead(items: seq<Item>, link: map<int, seq<Result<seq<Word>>>>, retries: nat)
    requires forall fc :: fc in GroupsOf(items) ==> fc in link
  {
    forall fc :: fc in GroupsOf(items) ==> FirstOk(Tried(link[fc], retries)).Some?
  }

  /** For each function code the first good answer, and where it starts. */
  function Collected(items: seq<Item>, link: map<int, seq<Result<seq<Word>>>>, retries: nat): map<int, (nat, seq<Word>)>
    requires forall fc :: fc in GroupsOf(items) ==> fc in link
    requires AllRead(items, link, retries)
  {
    map fc | fc in GroupsOf(items) :: (GroupsOf(items)[fc].lo, FirstOk(Tried(link[fc], retries)).value)
  }

  method ReadAll(items: seq<Item>, link: map<int, seq<Result<seq<Word>>>>, retries: nat)
    returns (answers: Option<map<int, (nat, seq<Word>)>>)
    requires forall fc :: fc in GroupsOf(items) ==> fc in link
    requires forall i :: 0 <= i < |items| ==> items[i].fc == 3 || items[i].fc == 4
    ensures answers.Some? <==> AllRead(items, link, retries)
    ensures answers.Some? ==> answers.value == Collected(items, link, retries)
  {
    var groups := ReadGroups(items);
    GroupCodes(items);
    hide FirstOk, Tried;
    var found: map<int, (nat, seq<Word>)> := map[];
    for fc := 3 to 5
      invariant forall f :: f in found <==> f in groups && f < fc
      invariant forall f :: f in found ==> ReadOk(groups, link, retries, f, found[f])
    {
      if fc in groups {
        var res := TryRead(link[fc], retries);
        if res.None? { return None; }
        found := found[fc := (groups[fc].lo, res.value)];
      }
    }
    forall fc | fc in groups
      ensures ReadOk(groups, link, retries, fc, found[fc])
    {
    }
    assert AllRead(items, link, retries);
    assert found.Keys == Collected(items, link, retries).Keys;
    answers := Some(found);
  }

  ghost predicate ReadOk(groups: map<int, Group>, link: map<int, seq<Result<seq<Word>>>>, retries: nat, fc: int,
                         found: (nat, seq<Word>))
  {
    fc in groups && fc in link && FirstOk(Tried(link[fc], retries)) == Some(found.1) && found.0 == groups[fc].lo
  }

  lemma AnswersSuffice(items: seq<Item>, link: map<int, seq<Result<seq<Word>>>>, retries: nat)
    requires forall fc :: fc in GroupsOf(items) ==>
                            fc in link && Answers(Tried(link[fc], retries), Extent(GroupsOf(items)[fc]))
    requires AllRead(items, link, retries)
    ensures Answered(items, Collected(items, link, retries))
  {
    GroupsAreTight(items);
    hide GroupsOf, Answers, FirstOk, Tried;
    var answers := Collected(items, link, retries);
    forall i | 0 <= i < |items|
      ensures items[i].fc in answers && answers[items[i].fc].0 <= items[i].address
      ensures End(items[i]) <= answers[items[i].fc].0 + |answers[items[i].fc].1|
    {
      var fc := items[i].fc;
      assert HoldsItem(GroupsOf(items), items[i]);
      FirstOkIsAnswer(Tried(link[fc], retries), Extent(GroupsOf(items)[fc]));
    }
  }

  lemma {:induction false} PackedLength(items: seq<Item>, answers: map<int, (nat, seq<Word>)>)
    requires Answered(items, answers)
    ensures |Packed(items, answers)| == ValueWords(items)
  {
    if items != [] { PackedLength(items[..|items| - 1], answers); }
  }

  /** Every successful attempt carries the number of words asked for. */
  ghost predicate Answers(attempts: seq<Result<seq<Word>>>, count: nat) {
    forall k :: 0 <= k < |attempts| && attempts[k].Ok? ==> |attempts[k].value| == count
  }
}
