// Modbus PDUs and framing: words to bytes and back, the PLC's answer to a request, and cutting a
// byte stream into frames.  Sections 6.3, 6.4 and 7 of "MODBUS Application Protocol" V1.1b3,
// section 2.5.1.2 of "MODBUS over Serial Line" V1.02, section 3.1.3 of "MODBUS Messaging on TCP/IP" V1.0b.

module Modbus {
  import opened Crc
  import opened Outcomes

  type Word = w: int | 0 <= w < 0x10000

  const MEM_WORDS := 2000
  const EXC_ILLEGAL_FUNCTION: Byte := 1
  const EXC_ILLEGAL_ADDRESS: Byte := 2

  // ---------- PDUs ----------

  function WordBytes(w: Word): (bytes: seq<Byte>)
    ensures |bytes| == 2
  {
    [w / 256, w % 256]
  }

  function WordOf(hi: Byte, lo: Byte): Word {
    256 * (hi as int) + lo
  }

  function WordsBytes(ws: seq<Word>): (bytes: seq<Byte>)
    ensures |bytes| == 2 * |ws|
  {
    if ws == [] then [] else WordBytes(ws[0]) + WordsBytes(ws[1..])
  }

  function BytesWords(bytes: seq<Byte>): (ws: seq<Word>)
    requires |bytes| % 2 == 0
    ensures |ws| == |bytes| / 2
  {
    if bytes == [] then [] else [WordOf(bytes[0], bytes[1])] + BytesWords(bytes[2..])
  }

  function ReadPdu(fc: Byte, addr: Word, count: Word): seq<Byte> {
    [fc] + WordBytes(addr) + WordBytes(count)
  }

  /** The byte count is one byte, so at most 127 words fit. */
  function WordsPdu(fc: Byte, ws: seq<Word>): seq<Byte>
    requires |ws| <= 127
  {
    [fc, 2 * |ws|] + WordsBytes(ws)
  }

  /** `fc | 0x80` */
  function ErrorCode(fc: Byte): Byte {
    if fc >= 128 then fc else fc + 128
  }

  function ExceptionPdu(fc: Byte, code: Byte): seq<Byte> {
    [ErrorCode(fc), code]
  }

  function ParseWordsPdu(pdu: seq<Byte>, fc: Byte, count: nat): Result<seq<Word>> {
    if pdu == [] then Err(BadFrame)
    else if pdu[0] == ErrorCode(fc) then Err(ExceptionResponse(if |pdu| > 1 then pdu[1] else 0))
    else if pdu[0] != fc || |pdu| < 2 || pdu[1] as int != count * 2 || |pdu| != 2 + count * 2 then Err(BadFrame)
    else Ok(BytesWords(pdu[2..]))
  }

  lemma {:induction false} BytesOfWords(bytes: seq<Byte>)
    requires |bytes| % 2 == 0
    ensures WordsBytes(BytesWords(bytes)) == bytes
  {
    if bytes != [] {
      BytesOfWords(bytes[2..]);
      assert WordBytes(WordOf(bytes[0], bytes[1])) == bytes[..2];
    }
  }

  lemma {:induction false} WordsOfBytes(ws: seq<Word>)
    ensures BytesWords(WordsBytes(ws)) == ws
  {
    if ws != [] {
      WordsOfBytes(ws[1..]);
      assert WordsBytes(ws)[2..] == WordsBytes(ws[1..]);
      assert WordOf(WordBytes(ws[0])[0], WordBytes(ws[0])[1]) == ws[0];
    }
  }

  /** Parsing yields words for exactly one PDU: the encoding of those words for that function and count. */
  lemma ParseAcceptsExactlyTheEncoding(pdu: seq<Byte>, fc: Byte, count: nat, ws: seq<Word>)
    ensures ParseWordsPdu(pdu, fc, count) == Ok(ws)
            <==> fc < 128 && |ws| == count <= 127 && pdu == WordsPdu(fc, ws)
  {
    if ParseWordsPdu(pdu, fc, count) == Ok(ws) {
      BytesOfWords(pdu[2..]);
      assert pdu == [pdu[0], pdu[1]] + pdu[2..];
    }
    if fc < 128 && |ws| == count <= 127 && pdu == WordsPdu(fc, ws) {
      WordsOfBytes(ws);
      assert pdu[2..] == WordsBytes(ws);
    }
  }

  lemma {:induction false} WordAt(ws: seq<Word>, i: nat)
    requires i < |ws|
    ensures WordsBytes(ws)[2 * i] as int == ws[i] / 256 && WordsBytes(ws)[2 * i + 1] as int == ws[i] % 256
  {
    if i > 0 {
      WordAt(ws[1..], i - 1);
      assert WordsBytes(ws) == WordBytes(ws[0]) + WordsBytes(ws[1..]);
    }
  }

  /** Byte by byte: every word of a request or an answer goes high byte first, and an exception answers with the
      function code and its top bit set. */
  lemma HighByteFirst(fc: Byte, addr: Word, count: Word, ws: seq<Word>, i: nat, code: Byte)
    requires |ws| <= 127 && i < |ws|
    ensures ReadPdu(fc, addr, count) == [fc, addr / 256, addr % 256, count / 256, count % 256]
    ensures var pdu := WordsPdu(fc, ws);
            && |pdu| == 2 + 2 * |ws| && pdu[0] == fc && pdu[1] as int == 2 * |ws|
            && pdu[2 + 2 * i] as int == ws[i] / 256 && pdu[3 + 2 * i] as int == ws[i] % 256
    ensures ExceptionPdu(fc, code) == [if fc < 128 then fc + 128 else fc, code]
  {
    WordAt(ws, i);
    hide WordsBytes;
  }

  // ---------- the PLC as a server ----------

  function Answer(memory: seq<Word>, pdu: seq<Byte>): seq<Byte>
    requires |memory| == MEM_WORDS && pdu != []
  {
    var fc := pdu[0];
    if fc != 3 && fc != 4 then ExceptionPdu(fc, EXC_ILLEGAL_FUNCTION)
    else if |pdu| != 5 then ExceptionPdu(fc, EXC_ILLEGAL_FUNCTION)
    else
      var addr, count := WordOf(pdu[1], pdu[2]), WordOf(pdu[3], pdu[4]);
      if count < 1 || count > 125 || addr as int + count > MEM_WORDS then ExceptionPdu(fc, EXC_ILLEGAL_ADDRESS)
      else WordsPdu(fc, memory[addr..addr as int + count])
  }

  /** End to end: what the client parses from the PLC's answer is the requested slice of memory, when
      the request is within the limits, and the right exception otherwise. */
  lemma ReadReturnsMemory(memory: seq<Word>, fc: Byte, addr: Word, count: Word)
    requires |memory| == MEM_WORDS && fc < 128
    ensures ParseWordsPdu(Answer(memory, ReadPdu(fc, addr, count)), fc, count) ==
            if fc != 3 && fc != 4 then Err(ExceptionResponse(1))
            else if 1 <= count <= 125 && addr as int + count <= MEM_WORDS then Ok(memory[addr..addr as int + count])
            else Err(ExceptionResponse(2))
  {
    var pdu := ReadPdu(fc, addr, count);
    assert WordOf(pdu[1], pdu[2]) == addr && WordOf(pdu[3], pdu[4]) == count;
    if (fc == 3 || fc == 4) && 1 <= count <= 125 && addr as int + count <= MEM_WORDS {
      var ws := memory[addr..addr as int + count];
      ParseAcceptsExactlyTheEncoding(WordsPdu(fc, ws), fc, count, ws);
    }
  }

  // ---------- cutting a stream into frames ----------

  datatype Cut = Incomplete | Refused | Frame(frame: seq<Byte>, rest: seq<Byte>)

  function CutAt(s: seq<Byte>, n: nat): Cut {
    if |s| < n then Incomplete else Frame(s[..n], s[n..])
  }

  /** One RTU frame off the front of a stream, by the length rules of requests or responses. */
  function TakeRtu(s: seq<Byte>, request: bool): Cut {
    if |s| < 2 then Incomplete
    else
      var fc := s[1];
      if request then
        if 1 <= fc <= 6 then CutAt(s, 8)
        else if fc == 15 || fc == 16 then
          if |s| < 7 then Incomplete else CutAt(s, 9 + s[6] as int)
        else Refused
      else if fc >= 128 then CutAt(s, 5)
      else if |s| < 3 then Incomplete
      else CutAt(s, 5 + s[2] as int)
  }

  /** What an asyncio stream reader offers: bytes are consumed from the front. */
  class StreamReader {
    var data: seq<Byte>

    constructor (bytes: seq<Byte>)
      ensures data == bytes
    {
      data := bytes;
    }

    /** Delivers exactly n bytes, or fails when the stream does not hold that many. */
    method ReadExactly(n: nat) returns (bytes: Option<seq<Byte>>)
      modifies this
      ensures |old(data)| < n ==> bytes == None && data == old(data)
      ensures |old(data)| >= n ==> bytes == Some(old(data)[..n]) && data == old(data)[n..]
    {
      if |data| < n { return None; }
      bytes, data := Some(data[..n]), data[n..];
    }
  }

  /** Reads one frame piece by piece.  `Incomplete` stands for running into the end of the stream. */
  method ReadRtuFrame(r: StreamReader, request: bool) returns (cut: Cut)
    modifies r
    ensures cut == TakeRtu(old(r.data), request)
    ensures cut.Frame? ==> r.data == cut.rest
  {
    ghost var s := r.data;
    var head := r.ReadExactly(2);
    if head == None { return Incomplete; }
    var fc := head.value[1];
    var rest: Option<seq<Byte>>;
    if request {
      if 1 <= fc <= 6 {
        rest := r.ReadExactly(6);
      } else if fc == 15 || fc == 16 {
        var mid := r.ReadExactly(5);
        if mid == None { return Incomplete; }
        assert mid.value[4] == s[6];
        rest := r.ReadExactly(mid.value[4] as int + 2);
        if rest.Some? { rest := Some(mid.value + rest.value); }
      } else {
        return Refused;
      }
    } else if fc >= 128 {
      rest := r.ReadExactly(3);
    } else {
      var n := r.ReadExactly(1);
      if n == None { return Incomplete; }
      rest := r.ReadExactly(n.value[0] as int + 2);
      if rest.Some? { rest := Some(n.value + rest.value); }
    }
    if rest == None { return Incomplete; }
    cut := Frame(head.value + rest.value, r.data);
    assert cut.frame == s[..|cut.frame|];
  }

  predicate WellFormedResponse(f: seq<Byte>) {
    |f| >= 5 && |f| == if f[1] >= 128 then 5 else 5 + f[2] as int
  }

  predicate WellFormedRequest(f: seq<Byte>) {
    |f| >= 8 && if f[1] == 15 || f[1] == 16 then |f| == 9 + f[6] as int else 1 <= f[1] <= 6 && |f| == 8
  }

  predicate WellFormedRtu(f: seq<Byte>, request: bool) {
    if request then WellFormedRequest(f) else WellFormedResponse(f)
  }

  /** A well-formed frame is cut off whole whatever follows it, no proper prefix of it is ever taken
      for a frame, and nothing else is ever cut off. */
  lemma RtuIsSelfDelimiting(f: seq<Byte>, rest: seq<Byte>, request: bool)
    ensures WellFormedRtu(f, request) <==> TakeRtu(f + rest, request) == Frame(f, rest)
    ensures WellFormedRtu(f, request) ==> forall n :: 0 <= n < |f| ==> TakeRtu(f[..n], request) == Incomplete
  {
    var s := f + rest;
    if |f| <= |s| { assert s[..|f|] == f && s[|f|..] == rest; }
    if TakeRtu(s, request) == Frame(f, rest) {
      assert |f| >= 5;
      assert s[1] == f[1] && s[2] == f[2];
    }
  }

  /** The answers devices send are well formed. */
  lemma AnswersAreWellFormed(unit: Byte, fc: Byte, ws: seq<Word>, code: Byte)
    requires fc < 128 && |ws| <= 127
    ensures WellFormedResponse(WithCrc([unit] + WordsPdu(fc, ws)))
    ensures WellFormedResponse(WithCrc([unit] + ExceptionPdu(fc, code)))
  {
    hide Crc16, Trailer;
    var answer, refusal := [unit] + WordsPdu(fc, ws), [unit] + ExceptionPdu(fc, code);
    assert WithCrc(answer)[1] == fc && WithCrc(answer)[2] == 2 * |ws|;
    assert WithCrc(refusal)[1] == ErrorCode(fc);
  }

  // ---------- MBAP ----------

  /** The header carries the transaction id modulo 2^16, protocol 0, and the length of unit and PDU. */
  function Mbap(tid: nat, unit: Byte, pdu: seq<Byte>): seq<Byte>
    requires |pdu| + 1 < 0x10000
  {
    WordBytes(tid % 0x10000) + [0, 0] + WordBytes(|pdu| + 1) + [unit] + pdu
  }

  function TakeMbap(s: seq<Byte>): Cut {
    if |s| < 7 then Incomplete
    else
      var length := WordOf(s[4], s[5]);
      if WordOf(s[2], s[3]) != 0 || length < 2 || length > 260 then Refused
      else CutAt(s, 6 + length as int)
  }

  function MbapTid(f: seq<Byte>): Word
    requires |f| >= 7
  {
    WordOf(f[0], f[1])
  }

  function MbapPdu(f: seq<Byte>): seq<Byte>
    requires |f| >= 7
  {
    f[7..]
  }

  /** A message written by `mbap` is read back exactly, for every PDU of 1 to 259 bytes and no other. */
  lemma MbapRoundTrip(tid: nat, unit: Byte, pdu: seq<Byte>, rest: seq<Byte>)
    requires |pdu| + 1 < 0x10000
    ensures var f := Mbap(tid, unit, pdu);
            if 1 <= |pdu| <= 259
            then TakeMbap(f + rest) == Frame(f, rest)
                 && MbapTid(f) as int == tid % 0x10000 && f[6] == unit && MbapPdu(f) == pdu
            else TakeMbap(f + rest) == Refused
  {
    var f := Mbap(tid, unit, pdu);
    MbapLayout(tid, unit, pdu, rest);
    hide Mbap, WordBytes;
    assert (f + rest)[..|f|] == f && (f + rest)[|f|..] == rest;
  }

  /** No proper prefix of a message is taken for a message. */
  lemma MbapPrefixFree(tid: nat, unit: Byte, pdu: seq<Byte>, n: nat)
    requires 1 <= |pdu| <= 259 && n < 7 + |pdu|
    ensures n < |Mbap(tid, unit, pdu)| && TakeMbap(Mbap(tid, unit, pdu)[..n]) == Incomplete
  {
    var f := Mbap(tid, unit, pdu);
    MbapLayout(tid, unit, pdu, []);
    hide Mbap, WordBytes;
    assert f + [] == f;
    var p := f[..n];
    assert n >= 7 ==> p[2] == f[2] && p[3] == f[3] && p[4] == f[4] && p[5] == f[5];
  }

  lemma MbapLayout(tid: nat, unit: Byte, pdu: seq<Byte>, rest: seq<Byte>)
    requires |pdu| + 1 < 0x10000
    ensures var f := Mbap(tid, unit, pdu);
            var s := f + rest;
            |f| == 7 + |pdu| && s[2] == f[2] == 0 && s[3] == f[3] == 0 && s[4] == f[4] && s[5] == f[5]
            && WordOf(f[4], f[5]) as int == |pdu| + 1 && MbapTid(f) as int == tid % 0x10000
            && f[6] == unit && MbapPdu(f) == pdu
  {
  }

  lemma LowSixteen(n: nat)
    ensures n % 0x10000 / 256 == n / 256 % 256 && n % 0x10000 % 256 == n % 256
  {
    var high, low := n / 0x10000, n % 0x10000;
    assert n == 256 * (256 * high + low / 256) + low % 256;
  }

  /** The header byte by byte: transaction id, protocol 0, length of unit and PDU, each high byte first, and the unit. */
  lemma MbapHeader(tid: nat, unit: Byte, pdu: seq<Byte>)
    requires |pdu| + 1 < 0x10000
    ensures Mbap(tid, unit, pdu)[..7] ==
            [tid / 256 % 256, tid % 256, 0, 0, (|pdu| + 1) / 256, (|pdu| + 1) % 256, unit]
  {
    LowSixteen(tid);
    var id, length := WordBytes(tid % 0x10000), WordBytes(|pdu| + 1);
    assert Mbap(tid, unit, pdu)[..7] == id + [0, 0] + length + [unit];
  }

  // ---------- whole streams ----------

  function Flatten(frames: seq<seq<Byte>>): seq<Byte> {
    if frames == [] then [] else frames[0] + Flatten(frames[1..])
  }

  /** Keep cutting until the stream no longer starts with a complete frame. */
  function Split(take: seq<Byte> -> Cut, s: seq<Byte>): (seq<seq<Byte>>, seq<Byte>)
    decreases |s|
  {
    match take(s)
    case Frame(f, rest) =>
      if |rest| < |s| then var (fs, tail) := Split(take, rest); ([f] + fs, tail) else ([], s)
    case _ => ([], s)
  }

  /** The frame is recognised at the front of every stream it starts. */
  ghost predicate Delimits(take: seq<Byte> -> Cut, f: seq<Byte>) {
    f != [] && forall rest :: take(f + rest) == Frame(f, rest)
  }

  lemma {:induction false} SplitFlatten(take: seq<Byte> -> Cut, frames: seq<seq<Byte>>, tail: seq<Byte>)
    requires !take(tail).Frame?
    requires forall i :: 0 <= i < |frames| ==> Delimits(take, frames[i])
    ensures Split(take, Flatten(frames) + tail) == (frames, tail)
  {
    if frames == [] {
      assert Flatten(frames) + tail == tail;
    } else {
      var rest := Flatten(frames[1..]) + tail;
      assert Flatten(frames) + tail == frames[0] + rest;
      assert Delimits(take, frames[0]);
      SplitFlatten(take, frames[1..], tail);
      assert take(frames[0] + rest) == Frame(frames[0], rest);
      assert frames == [frames[0]] + frames[1..];
    }
  }

  /** Any run of well-formed RTU frames followed by an unfinished one comes apart into exactly those frames. */
  lemma RtuStreamSplits(frames: seq<seq<Byte>>, last: seq<Byte>, n: nat, request: bool)
    requires forall i :: 0 <= i < |frames| ==> WellFormedRtu(frames[i], request)
    requires WellFormedRtu(last, request) && n < |last|
    ensures Split(s => TakeRtu(s, request), Flatten(frames) + last[..n]) == (frames, last[..n])
  {
    var take := s => TakeRtu(s, request);
    forall i | 0 <= i < |frames|
      ensures Delimits(take, frames[i])
    {
      forall rest
        ensures take(frames[i] + rest) == Frame(frames[i], rest)
      {
        RtuIsSelfDelimiting(frames[i], rest, request);
      }
    }
    RtuIsSelfDelimiting(last, [], request);
    SplitFlatten(take, frames, last[..n]);
  }

  datatype Message = Message(tid: nat, unit: Byte, pdu: seq<Byte>)

  function Encoded(ms: seq<Message>): (fs: seq<seq<Byte>>)
    requires forall i :: 0 <= i < |ms| ==> 1 <= |ms[i].pdu| <= 259
    ensures |fs| == |ms|
    ensures forall i :: 0 <= i < |ms| ==> fs[i] == Mbap(ms[i].tid, ms[i].unit, ms[i].pdu)
  {
    if ms == [] then [] else [Mbap(ms[0].tid, ms[0].unit, ms[0].pdu)] + Encoded(ms[1..])
  }

  /** Any run of Modbus TCP messages comes apart into exactly those messages. */
  lemma MbapStreamSplits(ms: seq<Message>)
    requires forall i :: 0 <= i < |ms| ==> 1 <= |ms[i].pdu| <= 259
    ensures Split(TakeMbap, Flatten(Encoded(ms))) == (Encoded(ms), [])
  {
    var fs := Encoded(ms);
    forall i | 0 <= i < |fs|
      ensures Delimits(TakeMbap, fs[i])
    {
      forall rest
        ensures TakeMbap(fs[i] + rest) == Frame(fs[i], rest)
      {
        MbapRoundTrip(ms[i].tid, ms[i].unit, ms[i].pdu, rest);
      }
    }
    SplitFlatten(TakeMbap, fs, []);
    assert Flatten(fs) + [] == Flatten(fs);
  }
}
