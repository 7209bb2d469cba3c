// The two TCP clients of the PLC and the Edge: one request at a time on a connection that is opened
// on demand and closed on any trouble, which keeps a late answer away from the requests that follow.
//
// The network is an input: for every read it says whether a connection can be made, what bytes the
// peer ever sends in answer to this request on this connection, and whether they arrive in time.
// Bytes that arrive too late stay on the connection, in front of whatever is sent next.

module StreamLink {
  import opened Crc
  import opened Outcomes
  import opened Modbus

  datatype Net = Net(connects: bool, answer: seq<Byte>, inTime: bool)

  /** `inbox` holds what the peer has sent, or will still send, and nobody has read. */
  datatype Conn = Closed | Open(inbox: seq<Byte>)

  datatype Request = Request(unit: Byte, fc: Byte, count: nat)

  /** The connection after `_ensure` and the write of the request. */
  function Asked(conn: Conn, net: Net): Conn {
    match conn
    case Closed => if net.connects then Open(net.answer) else Closed
    case Open(inbox) => Open(inbox + net.answer)
  }

  // ---------- RTU over TCP ----------

  function CheckRtu(frame: seq<Byte>, rest: seq<Byte>, q: Request): (Conn, Result<seq<Word>>)
    requires |frame| >= 5
  {
    if !CrcOk(frame) then (Closed, Err(CrcMismatch))
    else if frame[0] != q.unit then (Closed, Err(BadFrame))
    else (Open(rest), ParseWordsPdu(frame[1..|frame| - 2], q.fc, q.count))
  }

  function RtuRead(conn: Conn, q: Request, net: Net): (Conn, Result<seq<Word>>) {
    var asked := Asked(conn, net);
    if asked.Closed? || !net.inTime then (Closed, Err(Timeout))
    else match TakeRtu(asked.inbox, false)
         case Frame(frame, rest) => CheckRtu(frame, rest, q)
         case _ => (Closed, Err(Timeout))
  }

  class TcpRtuLink {
    var conn: Conn

    constructor ()
      ensures conn == Closed
    {
      conn := Closed;
    }

    method Close()
      modifies this
      ensures conn == Closed
    {
      conn := Closed;
    }

    method Read(q: Request, net: Net) returns (r: Result<seq<Word>>)
      modifies this
      ensures (conn, r) == RtuRead(old(conn), q, net)
    {
      if conn.Closed? {
        if !net.connects { return Err(Timeout); }
        conn := Open([]);
      }
      conn := Open(conn.inbox + net.answer);
      assert [] + net.answer == net.answer;
      assert conn == Asked(old(conn), net);
      if !net.inTime {
        Close();
        return Err(Timeout);
      }
      var reader := new StreamReader(conn.inbox);
      var cut := ReadRtuFrame(reader, false);
      if !cut.Frame? {
        Close();
        return Err(Timeout);
      }
      var resp := cut.frame;
      conn := Open(reader.data);
      if !CrcOk(resp) {
        Close();
        return Err(CrcMismatch);
      }
      if resp[0] != q.unit {
        Close();
        return Err(BadFrame);
      }
      r := ParseWordsPdu(resp[1..|resp| - 2], q.fc, q.count);
    }
  }

  /** The one answer that carries these words. */
  function RtuAnswer(q: Request, ws: seq<Word>): seq<Byte>
    requires |ws| <= 127
  {
    WithCrc([q.unit] + WordsPdu(q.fc, ws))
  }

  predicate Quiet(conn: Conn) {
    conn.Closed? || conn.inbox == []
  }

  /** The peer sends at most one frame per request; its contents may be anything, or cut short. */
  predicate AtMostOneRtuFrame(answer: seq<Byte>) {
    TakeRtu(answer, false).Frame? ==> TakeRtu(answer, false).rest == []
  }

  lemma TakenWhole(answer: seq<Byte>)
    requires TakeRtu(answer, false).Frame? && TakeRtu(answer, false).rest == []
    ensures TakeRtu(answer, false).frame == answer && |answer| >= 5
  {
    var cut := TakeRtu(answer, false);
    assert answer == cut.frame + cut.rest;
  }

  lemma AcceptedFrameIsTheAnswer(frame: seq<Byte>, q: Request, ws: seq<Word>)
    requires |frame| >= 5
    ensures CheckRtu(frame, [], q).1 == Ok(ws)
            <==> q.fc < 128 && |ws| == q.count <= 127 && frame == RtuAnswer(q, ws)
  {
    var n := |frame| - 2;
    var body, pdu := frame[..n], frame[1..n];
    assert frame == body + [frame[n], frame[n + 1]];
    assert body == [frame[0]] + pdu;
    OnlyTheTrailerIsAccepted(body, frame[n], frame[n + 1]);
    ParseAcceptsExactlyTheEncoding(pdu, q.fc, q.count, ws);
    hide Crc16, Trailer, WordsPdu, ParseWordsPdu;
    if q.fc < 128 && |ws| == q.count <= 127 && frame == RtuAnswer(q, ws) {
      assert body == [q.unit] + WordsPdu(q.fc, ws);
      assert pdu == WordsPdu(q.fc, ws);
      assert frame[0] == q.unit;
    }
  }

  /** On a quiet link a read returns words exactly when the peer's timely answer to this very request
      is their encoding, and the link is quiet again afterwards. */
  lemma RtuReadAnswersThisRequest(conn: Conn, q: Request, net: Net, ws: seq<Word>)
    requires Quiet(conn) && AtMostOneRtuFrame(net.answer)
    ensures Quiet(RtuRead(conn, q, net).0)
    ensures RtuRead(conn, q, net).1 == Ok(ws)
            <==> (conn.Open? || net.connects) && net.inTime
                 && q.fc < 128 && |ws| == q.count <= 127 && net.answer == RtuAnswer(q, ws)
  {
    hide CheckRtu, RtuAnswer;
    assert [] + net.answer == net.answer;
    if TakeRtu(net.answer, false).Frame? {
      TakenWhole(net.answer);
      AcceptedFrameIsTheAnswer(net.answer, q, ws);
      CheckedLinkIsQuiet(net.answer, q);
    } else if q.fc < 128 && |ws| == q.count <= 127 {
      AnswerIsTaken(q, ws);
    }
  }

  lemma CheckedLinkIsQuiet(frame: seq<Byte>, q: Request)
    requires |frame| >= 5
    ensures Quiet(CheckRtu(frame, [], q).0)
  {
  }

  lemma AnswerIsTaken(q: Request, ws: seq<Word>)
    requires q.fc < 128 && |ws| <= 127
    ensures TakeRtu(RtuAnswer(q, ws), false).Frame?
  {
    AnswersAreWellFormed(q.unit, q.fc, ws, 0);
    RtuIsSelfDelimiting(RtuAnswer(q, ws), [], false);
    assert RtuAnswer(q, ws) + [] == RtuAnswer(q, ws);
  }

  /** A genuine answer hit by a burst that leaves its framing alone yields no words and closes the link. */
  lemma CorruptedAnswerIsRejected(conn: Conn, q: Request, net: Net, ws: seq<Word>, i: nat)
    requires Quiet(conn) && (conn.Open? || net.connects) && net.inTime
    requires q.fc < 128 && |ws| <= 127
    requires |net.answer| == |RtuAnswer(q, ws)| && net.answer != RtuAnswer(q, ws)
    requires WellFormedResponse(net.answer) && i <= 8 * |net.answer|
    requires forall j :: 0 <= j < 8 * |net.answer| && (j < i || j >= i + 16)
                         ==> FrameBits(RtuAnswer(q, ws))[j] == FrameBits(net.answer)[j]
    ensures RtuRead(conn, q, net) == (Closed, Err(CrcMismatch))
  {
    hide Crc16, Trailer, FrameBits;
    var body := [q.unit] + WordsPdu(q.fc, ws);
    var f := RtuAnswer(q, ws);
    assert f == body + [f[|body|], f[|body| + 1]];
    OnlyTheTrailerIsAccepted(body, f[|body|], f[|body| + 1]);
    BurstRejected(f, net.answer, i);
    RtuIsSelfDelimiting(net.answer, [], false);
    assert [] + net.answer == net.answer == net.answer + [];
  }

  // ---------- Modbus TCP ----------

  function CheckTcp(frame: seq<Byte>, rest: seq<Byte>, tid: Word, q: Request): (Conn, Result<seq<Word>>)
    requires |frame| >= 7
  {
    if MbapTid(frame) != tid then (Closed, Err(BadFrame))
    else
      var r := ParseWordsPdu(MbapPdu(frame), q.fc, q.count);
      if r == Err(BadFrame) then (Closed, r) else (Open(rest), r)
  }

  function TcpRead(conn: Conn, tid: Word, q: Request, net: Net): (Conn, Result<seq<Word>>) {
    var asked := Asked(conn, net);
    if asked.Closed? || !net.inTime then (Closed, Err(Timeout))
    else match TakeMbap(asked.inbox)
         case Incomplete => (Closed, Err(Timeout))
         case Refused => (Closed, Err(BadFrame))
         case Frame(frame, rest) => CheckTcp(frame, rest, tid, q)
  }

  class ModbusTcpLink {
    var conn: Conn

    constructor ()
      ensures conn == Closed
    {
      conn := Closed;
    }

    method Close()
      modifies this
      ensures conn == Closed
    {
      conn := Closed;
    }

    /** `counter` is the next value of the transaction counter all links share. */
    method Read(counter: nat, q: Request, net: Net) returns (r: Result<seq<Word>>)
      modifies this
      ensures (conn, r) == TcpRead(old(conn), counter % 0x10000, q, net)
    {
      var tid := counter % 0x10000;
      if conn.Closed? {
        if !net.connects { return Err(Timeout); }
        conn := Open([]);
      }
      conn := Open(conn.inbox + net.answer);
      assert [] + net.answer == net.answer;
      assert conn == Asked(old(conn), net);
      if !net.inTime {
        Close();
        return Err(Timeout);
      }
      var cut := TakeMbap(conn.inbox);
      match cut {
        case Incomplete =>
          Close();
          return Err(Timeout);
        case Refused =>
          Close();
          return Err(BadFrame);
        case Frame(frame, rest) =>
          conn := Open(rest);
          if MbapTid(frame) != tid {
            Close();
            return Err(BadFrame);
          }
          r := ParseWordsPdu(MbapPdu(frame), q.fc, q.count);
          if r == Err(BadFrame) { Close(); }
      }
    }
  }

  predicate AtMostOneMessage(answer: seq<Byte>) {
    TakeMbap(answer).Frame? ==> TakeMbap(answer).rest == []
  }

  lemma MessageFromParts(f: seq<Byte>, fc: Byte, ws: seq<Word>)
    requires TakeMbap(f) == Frame(f, []) && |ws| <= 127 && MbapPdu(f) == WordsPdu(fc, ws)
    ensures f == Mbap(MbapTid(f), f[6], WordsPdu(fc, ws))
  {
    hide Mbap, WordsPdu, WordBytes, TakeMbap, WordOf, MbapTid, MbapPdu;
    TakenHeader(f);
    var pdu := WordsPdu(fc, ws);
    var m := Mbap(MbapTid(f), f[6], pdu);
    MessageHeader(MbapTid(f), f[6], pdu);
    WordOfInjective(f[0], f[1], m[0], m[1]);
    WordOfInjective(f[2], f[3], m[2], m[3]);
    WordOfInjective(f[4], f[5], m[4], m[5]);
    SameMessage(f, m);
  }

  lemma TakenHeader(f: seq<Byte>)
    requires TakeMbap(f) == Frame(f, [])
    ensures |f| >= 7 && WordOf(f[2], f[3]) == 0 && WordOf(f[4], f[5]) as int == |f| - 6
    ensures MbapTid(f) == WordOf(f[0], f[1]) && MbapPdu(f) == f[7..]
  {
  }

  lemma MessageHeader(tid: Word, unit: Byte, pdu: seq<Byte>)
    requires |pdu| + 1 < 0x10000
    ensures var m := Mbap(tid, unit, pdu);
            |m| == 7 + |pdu| && WordOf(m[0], m[1]) == tid && WordOf(m[2], m[3]) == 0
            && WordOf(m[4], m[5]) as int == |pdu| + 1 && m[6] == unit && m[7..] == pdu
  {
    MbapLayout(tid, unit, pdu, []);
  }

  lemma WordOfInjective(a: Byte, b: Byte, c: Byte, d: Byte)
    ensures WordOf(a, b) == WordOf(c, d) ==> a == c && b == d
  {
  }

  lemma SameMessage(f: seq<Byte>, m: seq<Byte>)
    requires |f| == |m| >= 7 && f[7..] == m[7..]
    requires f[0] == m[0] && f[1] == m[1] && f[2] == m[2] && f[3] == m[3] && f[4] == m[4] && f[5] == m[5] && f[6] == m[6]
    ensures f == m
  {
    forall i | 0 <= i < |f|
      ensures f[i] == m[i]
    {
      if i >= 7 { assert f[7..][i - 7] == m[7..][i - 7]; }
    }
  }

  /** A message with this transaction id that carries these words, from whatever unit. */
  ghost predicate Carries(f: seq<Byte>, tid: Word, fc: Byte, ws: seq<Word>)
    requires |ws| <= 127
  {
    exists unit: Byte :: f == Mbap(tid, unit, WordsPdu(fc, ws))
  }

  lemma CarriedMessage(f: seq<Byte>, tid: Word, fc: Byte, ws: seq<Word>)
    requires |ws| <= 127
    ensures TakeMbap(f) == Frame(f, []) && MbapTid(f) == tid && MbapPdu(f) == WordsPdu(fc, ws)
            <==> Carries(f, tid, fc, ws)
  {
    hide WordsPdu;
    assert 1 <= |WordsPdu(fc, ws)| <= 259 by { PduSize(fc, ws); }
    if TakeMbap(f) == Frame(f, []) && MbapTid(f) == tid && MbapPdu(f) == WordsPdu(fc, ws) {
      MessageFromParts(f, fc, ws);
    }
    forall unit: Byte | f == Mbap(tid, unit, WordsPdu(fc, ws))
      ensures TakeMbap(f) == Frame(f, []) && MbapTid(f) == tid && MbapPdu(f) == WordsPdu(fc, ws)
    {
      MbapRoundTrip(tid, unit, WordsPdu(fc, ws), []);
      assert f + [] == f;
    }
  }

  lemma PduSize(fc: Byte, ws: seq<Word>)
    requires |ws| <= 127
    ensures |WordsPdu(fc, ws)| == 2 + 2 * |ws|
  {
  }

  lemma AcceptedMessageIsTheAnswer(f: seq<Byte>, tid: Word, q: Request, ws: seq<Word>)
    requires TakeMbap(f) == Frame(f, [])
    ensures |f| >= 7 && Quiet(CheckTcp(f, [], tid, q).0)
    ensures CheckTcp(f, [], tid, q).1 == Ok(ws)
            <==> q.fc < 128 && |ws| == q.count <= 127 && Carries(f, tid, q.fc, ws)
  {
    ParseAcceptsExactlyTheEncoding(MbapPdu(f), q.fc, q.count, ws);
    if |ws| <= 127 { CarriedMessage(f, tid, q.fc, ws); }
    hide WordsPdu, ParseWordsPdu, Mbap, MbapTid, MbapPdu, Carries;
  }

  lemma CarriedIsTaken(f: seq<Byte>, tid: Word, fc: Byte, ws: seq<Word>)
    requires |ws| <= 127 && Carries(f, tid, fc, ws)
    ensures TakeMbap(f) == Frame(f, [])
  {
    CarriedMessage(f, tid, fc, ws);
  }

  lemma TakenWholeMessage(answer: seq<Byte>)
    requires TakeMbap(answer).Frame? && TakeMbap(answer).rest == []
    ensures TakeMbap(answer) == Frame(answer, [])
  {
    assert TakeMbap(answer) == CutAt(answer, 6 + WordOf(answer[4], answer[5]) as int);
    assert answer[..|answer|] == answer;
  }

  /** The same for Modbus TCP: words come back exactly when the timely answer carries this request's
      transaction id, its function and its word count; the unit of the answer is not looked at. */
  lemma TcpReadAnswersThisRequest(conn: Conn, tid: Word, q: Request, net: Net, ws: seq<Word>)
    requires Quiet(conn) && AtMostOneMessage(net.answer)
    ensures Quiet(TcpRead(conn, tid, q, net).0)
    ensures TcpRead(conn, tid, q, net).1 == Ok(ws)
            <==> (conn.Open? || net.connects) && net.inTime && q.fc < 128 && |ws| == q.count <= 127
                 && Carries(net.answer, tid, q.fc, ws)
  {
    hide CheckTcp, Carries, TakeMbap;
    assert [] + net.answer == net.answer;
    if TakeMbap(net.answer).Frame? {
      TakenWholeMessage(net.answer);
      AcceptedMessageIsTheAnswer(net.answer, tid, q, ws);
    } else if |ws| <= 127 && Carries(net.answer, tid, q.fc, ws) {
      CarriedIsTaken(net.answer, tid, q.fc, ws);
    }
  }

  // ---------- what goes wrong, and what it does to the connection ----------

  /** The peer can be reached and answers in time. */
  predicate Answered(conn: Conn, net: Net) {
    (conn.Open? || net.connects) && net.inTime
  }

  lemma QuietRtuRead(conn: Conn, q: Request, net: Net)
    requires Quiet(conn) && AtMostOneRtuFrame(net.answer) && Answered(conn, net)
    ensures if WellFormedResponse(net.answer) then RtuRead(conn, q, net) == CheckRtu(net.answer, [], q)
            else RtuRead(conn, q, net) == (Closed, Err(Timeout))
  {
    hide CheckRtu, WellFormedResponse;
    assert [] + net.answer == net.answer == net.answer + [];
    RtuIsSelfDelimiting(net.answer, [], false);
    assert WellFormedRtu(net.answer, false) == WellFormedResponse(net.answer);
    if TakeRtu(net.answer, false).Frame? { TakenWhole(net.answer); }
  }

  /** Which error a read on a quiet link reports, and when the connection survives: only an answer that arrives whole and in
      time, with a good checksum and from the unit asked, keeps it open, be it words, an exception or nonsense. */
  lemma RtuErrorsExactly(conn: Conn, q: Request, net: Net)
    requires Quiet(conn) && AtMostOneRtuFrame(net.answer)
    ensures var a := net.answer;
            var whole := Answered(conn, net) && WellFormedResponse(a);
            var (after, r) := RtuRead(conn, q, net);
            && (r == Err(Timeout) <==> !whole)
            && (r == Err(CrcMismatch) <==> whole && !CrcOk(a))
            && (after == Open([]) <==> whole && CrcOk(a) && a[0] == q.unit)
            && (after == Closed <==> !(whole && CrcOk(a) && a[0] == q.unit))
            && (forall code :: r == Err(ExceptionResponse(code)) <==>
                                 whole && CrcOk(a) && a[0] == q.unit && a[1] == ErrorCode(q.fc) && code == a[2] as int)
  {
    hide WellFormedResponse, CrcOk, ErrorCode;
    if Answered(conn, net) {
      QuietRtuRead(conn, q, net);
      if WellFormedResponse(net.answer) {
        ResponseSize(net.answer);
        RtuVerdict(net.answer, q);
      }
    }
  }

  lemma ResponseSize(a: seq<Byte>)
    requires WellFormedResponse(a)
    ensures |a| >= 5
  {
  }

  lemma RtuVerdict(a: seq<Byte>, q: Request)
    requires |a| >= 5
    ensures var (after, r) := CheckRtu(a, [], q);
            && r != Err(Timeout) && (r == Err(CrcMismatch) <==> !CrcOk(a))
            && (after == Open([]) <==> CrcOk(a) && a[0] == q.unit)
            && (after == Closed <==> !(CrcOk(a) && a[0] == q.unit))
            && (forall code :: r == Err(ExceptionResponse(code)) <==>
                                 CrcOk(a) && a[0] == q.unit && a[1] == ErrorCode(q.fc) && code == a[2] as int)
  {
    hide CrcOk, ErrorCode, BytesWords;
    var pdu := a[1..|a| - 2];
    assert pdu[0] == a[1] && pdu[1] == a[2];
  }

  /** Why the connection must be closed: an answer left over on it would be taken for the answer to the next request for
      as many words from the same unit, whatever that request is really answered, and stay ahead by one from then on. */
  lemma StaleAnswerIsTaken(q: Request, ws: seq<Word>, net: Net)
    requires q.fc < 128 && |ws| == q.count <= 127 && net.inTime
    ensures RtuRead(Open(RtuAnswer(q, ws)), q, net) == (Open(net.answer), Ok(ws))
  {
    hide RtuAnswer, CheckRtu;
    var stale := RtuAnswer(q, ws);
    StaleIsAnswer(q, ws);
    RtuIsSelfDelimiting(stale, net.answer, false);
    AnswerChecks(q, ws, net.answer);
  }

  lemma StaleIsAnswer(q: Request, ws: seq<Word>)
    requires q.fc < 128 && |ws| <= 127
    ensures WellFormedRtu(RtuAnswer(q, ws), false)
  {
    hide WellFormedResponse;
    AnswersAreWellFormed(q.unit, q.fc, ws, 0);
  }

  lemma AnswerChecks(q: Request, ws: seq<Word>, rest: seq<Byte>)
    requires q.fc < 128 && |ws| == q.count <= 127
    ensures |RtuAnswer(q, ws)| >= 5 && CheckRtu(RtuAnswer(q, ws), rest, q) == (Open(rest), Ok(ws))
  {
    hide Crc16, Trailer, WordsPdu, ParseWordsPdu;
    var f := RtuAnswer(q, ws);
    assert |f| >= 5 by { StaleIsAnswer(q, ws); }
    AcceptedFrameIsTheAnswer(f, q, ws);
  }

  /** A message of Modbus TCP: its header names protocol 0 and its own length, of 2 to 260 bytes behind the length field. */
  predicate WellFormedMessage(a: seq<Byte>) {
    |a| >= 8 && WordOf(a[2], a[3]) == 0 && WordOf(a[4], a[5]) as int == |a| - 6 <= 260
  }

  /** A header that cannot start a message. */
  predicate BadHeader(a: seq<Byte>) {
    |a| >= 7 && (WordOf(a[2], a[3]) != 0 || WordOf(a[4], a[5]) < 2 || WordOf(a[4], a[5]) > 260)
  }

  lemma MessageTaken(a: seq<Byte>)
    requires AtMostOneMessage(a)
    ensures WellFormedMessage(a) <==> TakeMbap(a) == Frame(a, [])
    ensures BadHeader(a) <==> TakeMbap(a) == Refused
    ensures !WellFormedMessage(a) && !BadHeader(a) <==> TakeMbap(a) == Incomplete
  {
    if TakeMbap(a).Frame? { TakenWholeMessage(a); }
    if WellFormedMessage(a) { assert a[..|a|] == a && a[|a|..] == []; }
  }

  /** The same for Modbus TCP: a timely message with the id of the request keeps the connection open if it is words as asked
      for or an exception; everything else closes it. */
  lemma TcpErrorsExactly(conn: Conn, tid: Word, q: Request, net: Net)
    requires Quiet(conn) && AtMostOneMessage(net.answer)
    ensures var a := net.answer;
            var whole := Answered(conn, net) && WellFormedMessage(a);
            var (after, r) := TcpRead(conn, tid, q, net);
            && (r == Err(Timeout) <==> !Answered(conn, net) || (!WellFormedMessage(a) && !BadHeader(a)))
            && (forall code :: r == Err(ExceptionResponse(code)) <==>
                                 whole && WordOf(a[0], a[1]) == tid && a[7] == ErrorCode(q.fc)
                                 && code == if |a| > 8 then a[8] as int else 0)
            && r != Err(CrcMismatch)
            && after == (if r.Ok? || r.error.ExceptionResponse? then Open([]) else Closed)
  {
    hide WellFormedMessage, BadHeader, ErrorCode, CheckTcp, TakeMbap;
    assert [] + net.answer == net.answer;
    MessageTaken(net.answer);
    if Answered(conn, net) && WellFormedMessage(net.answer) {
      MessageSize(net.answer);
      TcpVerdict(net.answer, tid, q);
    }
  }

  lemma MessageSize(a: seq<Byte>)
    requires WellFormedMessage(a)
    ensures |a| >= 8
  {
  }

  lemma TcpVerdict(a: seq<Byte>, tid: Word, q: Request)
    requires |a| >= 8
    ensures var (after, r) := CheckTcp(a, [], tid, q);
            && r != Err(Timeout) && r != Err(CrcMismatch)
            && (forall code :: r == Err(ExceptionResponse(code)) <==>
                                 WordOf(a[0], a[1]) == tid && a[7] == ErrorCode(q.fc) && code == if |a| > 8 then a[8] as int else 0)
            && after == (if r.Ok? || r.error.ExceptionResponse? then Open([]) else Closed)
  {
    hide ErrorCode, BytesWords, WordOf;
    var pdu := a[7..];
    assert pdu[0] == a[7];
    assert |a| > 8 ==> pdu[1] == a[8];
  }

  // ---------- whole runs ----------

  /** A link lives through reads, and through being stopped: the pending read is cancelled and the
      connection closed before anybody else uses the link. */
  datatype Event = Read(q: Request, net: Net) | Stop(net: Net)

  function After(conn: Conn, e: Event): Conn {
    match e
    case Read(q, net) => RtuRead(conn, q, net).0
    case Stop(_) => Closed
  }

  function ConnAfter(events: seq<Event>): Conn {
    if events == [] then Closed else After(ConnAfter(events[..|events| - 1]), events[|events| - 1])
  }

  ghost predicate HonestPeer(events: seq<Event>) {
    forall i :: 0 <= i < |events| && events[i].Read? ==> AtMostOneRtuFrame(events[i].net.answer)
  }

  lemma {:induction false} IdleLinkIsQuiet(events: seq<Event>)
    requires HonestPeer(events)
    ensures Quiet(ConnAfter(events))
  {
    if events != [] {
      var n := |events| - 1;
      IdleLinkIsQuiet(events[..n]);
      match events[n]
      case Read(q, net) => RtuReadAnswersThisRequest(ConnAfter(events[..n]), q, net, []);
      case Stop(_) =>
    }
  }

  /** Over any run of answers, silences, late answers, corrupted answers and restarts, the words a read
      returns are the ones its own request was answered with. */
  lemma RtuRunPairs(events: seq<Event>, i: nat, ws: seq<Word>)
    requires HonestPeer(events) && i < |events| && events[i].Read?
    requires RtuRead(ConnAfter(events[..i]), events[i].q, events[i].net).1 == Ok(ws)
    ensures events[i].net.inTime && |ws| == events[i].q.count <= 127
    ensures events[i].net.answer == RtuAnswer(events[i].q, ws)
  {
    IdleLinkIsQuiet(events[..i]);
    RtuReadAnswersThisRequest(ConnAfter(events[..i]), events[i].q, events[i].net, ws);
  }

  datatype TcpEvent = TcpEvent(tid: Word, q: Request, net: Net, stop: bool)

  function TcpConnAfter(events: seq<TcpEvent>): Conn {
    if events == [] then Closed
    else
      var e := events[|events| - 1];
      if e.stop then Closed else TcpRead(TcpConnAfter(events[..|events| - 1]), e.tid, e.q, e.net).0
  }

  lemma {:induction false} IdleTcpLinkIsQuiet(events: seq<TcpEvent>)
    requires forall i :: 0 <= i < |events| ==> AtMostOneMessage(events[i].net.answer)
    ensures Quiet(TcpConnAfter(events))
  {
    if events != [] {
      var n := |events| - 1;
      IdleTcpLinkIsQuiet(events[..n]);
      TcpReadAnswersThisRequest(TcpConnAfter(events[..n]), events[n].tid, events[n].q, events[n].net, []);
    }
  }

  lemma TcpRunPairs(events: seq<TcpEvent>, i: nat, ws: seq<Word>)
    requires forall j :: 0 <= j < |events| ==> AtMostOneMessage(events[j].net.answer)
    requires i < |events| && !events[i].stop
    requires TcpRead(TcpConnAfter(events[..i]), events[i].tid, events[i].q, events[i].net).1 == Ok(ws)
    ensures events[i].net.inTime && |ws| == events[i].q.count <= 127
    ensures Carries(events[i].net.answer, events[i].tid, events[i].q.fc, ws)
  {
    IdleTcpLinkIsQuiet(events[..i]);
    TcpReadAnswersThisRequest(TcpConnAfter(events[..i]), events[i].tid, events[i].q, events[i].net, ws);
  }
}
