/**
 The request stream seen from its grammar: a series of messages, each a header block and the body it announces.
 The transducer is checked against this description, which does not mention its states.
 */
module WireMessages {
  import opened Bytes
  import opened ChunkTracker
  import opened HeaderMeaning
  import opened HeaderOrder
  import opened HeaderRewrite
  import opened Numbers
  import opened Options
  import opened WireStream

  datatype ChunkPart = ChunkPart(sizeLine: ByteString, data: ByteString)

  datatype Payload =
    | Plain(data: ByteString)
    | Chunks(parts: seq<ChunkPart>, lastLine: ByteString, fields: seq<ByteString>)

  datatype Message = Message(header: ByteString, payload: Payload)

  /** A size line that announces `n` bytes. */
  ghost predicate SizeLine(rules: Rules, line: ByteString, n: nat) {
    !Contains(line, CRLF) && |line| + 2 <= 1048576 && AnnouncesSize(rules, line, n)
  }

  /** Any number of trailer fields, each a line that is not empty, and a blank line. */
  function TrailerWire(fields: seq<ByteString>): ByteString {
    JoinLines(fields) + CRLF
  }

  predicate TrailerFields(fields: seq<ByteString>) {
    && (forall field :: field in fields ==> field != [] && !Contains(field, CRLF))
    && |TrailerWire(fields)| <= 1048576
  }

  ghost predicate WellFormedParts(rules: Rules, parts: seq<ChunkPart>) {
    forall part :: part in parts ==> part.data != [] && SizeLine(rules, part.sizeLine, |part.data|)
  }

  /** A header block and the body that its lines announce: chunked if some line says so, else of the length given. */
  ghost predicate WellFormed(rules: Rules, msg: Message) {
    && IsHeader(msg.header)
    && var lines := HeaderLines(msg.header)[1..];
       match msg.payload
       case Plain(data) =>
         (forall line :: line in lines ==> !ListsChunked(rules, line)) && AnnouncesLength(rules, lines, |data|)
       case Chunks(parts, lastLine, fields) =>
         && (exists line :: line in lines && ListsChunked(rules, line))
         && WellFormedParts(rules, parts) && SizeLine(rules, lastLine, 0) && TrailerFields(fields)
  }

  ghost predicate WellFormedStream(rules: Rules, msgs: seq<Message>) {
    forall i :: 0 <= i < |msgs| ==> WellFormed(rules, msgs[i])
  }

  function PartsWire(parts: seq<ChunkPart>): ByteString {
    if parts == [] then [] else parts[0].sizeLine + CRLF + parts[0].data + CRLF + PartsWire(parts[1..])
  }

  function PayloadWire(payload: Payload): ByteString {
    match payload
    case Plain(data) => data
    case Chunks(parts, lastLine, fields) => PartsWire(parts) + (lastLine + CRLF + TrailerWire(fields))
  }

  /** The stream of the messages as callers write it, and as it should reach the other side. */
  function StreamIn(msgs: seq<Message>): ByteString {
    if msgs == [] then [] else msgs[0].header + PayloadWire(msgs[0].payload) + StreamIn(msgs[1..])
  }

  ghost function StreamOut(rules: Rules, msgs: seq<Message>): ByteString
    requires WellFormedStream(rules, msgs)
  {
    if msgs == [] then []
    else Rewritten(rules, msgs[0].header) + PayloadWire(msgs[0].payload) + StreamOut(rules, msgs[1..])
  }

  // ---------- Chunked payloads ----------

  lemma ScanJoin(rules: Rules, t: Tracker, a: ByteString, b: ByteString)
    ensures var scan := ScanFrom(rules, t, a);
      scan.Open? ==> ScanFrom(rules, t, a + b) == Shift(ScanFrom(rules, scan.tracker, b), |a|)
  {
    assert (a + b)[..|a|] == a && (a + b)[|a|..] == b;
    ScanSplit(rules, t, a + b, |a|);
  }

  lemma {:induction false} ScanQuietLine(rules: Rules, a: ByteString, b: ByteString)
    requires !Contains(a + b, CRLF) && |a + b| <= MAX_BUFFERED
    ensures ScanFrom(rules, InSize(a), b) == Open(InSize(a + b))
    decreases |b|
  {
    if b == [] {
      assert a + b == a;
    } else {
      var a' := a + [b[0]];
      assert a + b == a' + b[1..];
      if EndsWith(a', CRLF) {
        assert (a + b)[|a'| - 2..|a'|] == a'[|a'| - 2..];
        assert OccursAt(a + b, CRLF, |a'| - 2);
      }
      ScanQuietLine(rules, a', b[1..]);
    }
  }

  lemma NoLineEndAtCR(line: ByteString)
    requires !Contains(line, CRLF)
    ensures !Contains(line + [CR], CRLF)
  {
    var s := line + [CR];
    if Contains(s, CRLF) {
      var i := Index(s, CRLF);
      assert s[i..i + 2][1] == s[i + 1];
      assert line[i..i + 2] == s[i..i + 2];
      assert OccursAt(line, CRLF, i);
    }
  }

  lemma ScanSizeLine(rules: Rules, line: ByteString, n: nat)
    requires SizeLine(rules, line, n)
    ensures ScanFrom(rules, START, line + CRLF) == Open(if n == 0 then InTrailers([]) else InData(n))
  {
    hide ChunkSize, AnnouncesSize;
    SizeMeaning(rules, line, n);
    NoLineEndAtCR(line);
    var quiet := line + [CR];
    assert [] + quiet == quiet;
    ScanQuietLine(rules, [], quiet);
    ScanJoin(rules, START, quiet, [LF]);
    assert quiet + [LF] == line + CRLF;
    var full := line + CRLF;
    assert full[|full| - 2..] == CRLF;
    assert full[..|full| - 2] == line;
    assert [LF][1..] == [];
    assert Advance(rules, InSize(quiet), LF) == AfterSizeLine(rules, full);
  }

  lemma ScanChunkData(rules: Rules, data: ByteString)
    requires data != []
    ensures ScanFrom(rules, InData(|data|), data + CRLF) == Open(START)
  {
    var n := |data|;
    ScanData(rules, n, data + CRLF, n);
    assert (data + CRLF)[n..] == CRLF;
    assert CRLF[1..] == [LF] && [LF][1..] == [];
    assert ScanFrom(rules, InDataEnd(1), [LF]) == Open(START);
  }

  lemma ScanPart(rules: Rules, part: ChunkPart)
    requires part.data != [] && SizeLine(rules, part.sizeLine, |part.data|)
    ensures ScanFrom(rules, START, part.sizeLine + CRLF + part.data + CRLF) == Open(START)
  {
    var line, data := part.sizeLine + CRLF, part.data + CRLF;
    ScanSizeLine(rules, part.sizeLine, |part.data|);
    ScanJoin(rules, START, line, data);
    ScanChunkData(rules, part.data);
    assert line + data == part.sizeLine + CRLF + part.data + CRLF;
  }

  lemma {:induction false} ScanParts(rules: Rules, parts: seq<ChunkPart>)
    requires WellFormedParts(rules, parts)
    ensures ScanFrom(rules, START, PartsWire(parts)) == Open(START)
    decreases |parts|
  {
    if parts != [] {
      var first := parts[0].sizeLine + CRLF + parts[0].data + CRLF;
      ScanPart(rules, parts[0]);
      ScanParts(rules, parts[1..]);
      ScanJoin(rules, START, first, PartsWire(parts[1..]));
    }
  }

  /** The trailers are complete at their end and not before. */
  ghost predicate TrailerSection(trailers: ByteString) {
    && |trailers| <= MAX_BUFFERED && TrailersDone(trailers)
    && forall k :: 0 <= k < |trailers| ==> !TrailersDone(trailers[..k])
  }

  lemma FieldsMakeTrailers(fields: seq<ByteString>)
    requires TrailerFields(fields)
    ensures TrailerSection(TrailerWire(fields))
  {
    hide Index, JoinLines;
    var wire := TrailerWire(fields);
    if fields == [] {
      NoLines();
      assert wire == CRLF;
    } else {
      assert fields[0] in fields;
      assert forall field :: field in fields[1..] ==> field in fields;
      LinesMakeHeader(fields);
      FirstFieldOpens(fields, wire);
      assert EndsWith(wire, TERMINATOR);
      forall k | 0 <= k < |wire| ensures !TrailersDone(wire[..k]) {
        NotYetDone(wire, k);
      }
    }
  }

  lemma NoLines()
    ensures JoinLines([]) == []
  {
  }

  lemma FirstFieldOpens(fields: seq<ByteString>, wire: ByteString)
    requires fields != [] && fields[0] != [] && !Contains(fields[0], CRLF) && wire == TrailerWire(fields)
    ensures |wire| >= 4 && wire[..2] != CRLF
  {
    var first := fields[0];
    assert wire == first + CRLF + (JoinLines(fields[1..]) + CRLF);
    assert wire[0] == first[0] && (|first| > 1 ==> wire[1] == first[1]) && (|first| == 1 ==> wire[1] == CR);
    if |first| > 1 {
      assert first[0..2] == wire[..2];
      assert !OccursAt(first, CRLF, 0);
    }
  }

  lemma NotYetDone(wire: ByteString, k: nat)
    requires IsHeader(wire) && wire[..2] != CRLF && k < |wire|
    ensures !TrailersDone(wire[..k])
  {
    var front := wire[..k];
    if k >= 4 {
      assert front[k - 4..k] == wire[k - 4..k];
      assert !OccursAt(wire, TERMINATOR, k - 4);
    }
    if k == 2 {
      assert front == wire[..2];
    }
  }

  lemma ScanStep(rules: Rules, t: Tracker, data: ByteString, p: Progress)
    requires data != [] && Advance(rules, t, data[0]) == p
    ensures ScanFrom(rules, t, data) ==
      match p
      case More(t') => Shift(ScanFrom(rules, t', data[1..]), 1)
      case Done => Complete(1)
      case Invalid => Malformed
  {
    hide Advance;
  }

  lemma {:induction false} ScanTrailers(rules: Rules, trailers: ByteString, k: nat)
    requires TrailerSection(trailers) && k < |trailers|
    ensures ScanFrom(rules, InTrailers(trailers[..k]), trailers[k..]) == Complete(|trailers| - k)
    decreases |trailers| - k
  {
    hide TrailersDone, ScanFrom;
    var t, rest := InTrailers(trailers[..k]), trailers[k..];
    assert trailers[..k] + [rest[0]] == trailers[..k + 1];
    assert rest[1..] == trailers[k + 1..];
    if k + 1 < |trailers| {
      ScanTrailers(rules, trailers, k + 1);
      ScanStep(rules, t, rest, More(InTrailers(trailers[..k + 1])));
    } else {
      assert trailers[..k + 1] == trailers;
      ScanStep(rules, t, rest, Done);
    }
  }

  lemma ScanChunked(rules: Rules, parts: seq<ChunkPart>, lastLine: ByteString, fields: seq<ByteString>)
    requires WellFormedParts(rules, parts) && SizeLine(rules, lastLine, 0) && TrailerFields(fields)
    ensures var wire := PartsWire(parts) + (lastLine + CRLF + TrailerWire(fields));
      ScanFrom(rules, START, wire) == Complete(|wire|)
  {
    hide SizeLine, TrailersDone, TrailerWire, TrailerFields, ScanFrom, PartsWire, Contains;
    var trailers := TrailerWire(fields);
    FieldsMakeTrailers(fields);
    var last := lastLine + CRLF;
    ScanParts(rules, parts);
    ScanJoin(rules, START, PartsWire(parts), last + trailers);
    ScanSizeLine(rules, lastLine, 0);
    ScanJoin(rules, START, last, trailers);
    assert trailers != [];
    assert trailers[..0] == [] && trailers[0..] == trailers;
    ScanTrailers(rules, trailers, 0);
  }

  // ---------- Messages ----------

  lemma RunBlock(rules: Rules, header: ByteString)
    requires IsHeader(header)
    ensures Run(rules, IDLE, header) == Emit(AfterHeader(rules, header), Rewritten(rules, header))
  {
    hide Step, Run, Rewritten, AfterHeader;
    assert [] + header == header;
    assert OccursAt(header, TERMINATOR, |header| - 4);
    RunHeader(rules, [], header);
    assert header[..|header|] == header;
  }

  lemma RunPayload(rules: Rules, msg: Message)
    requires WellFormed(rules, msg)
    ensures Run(rules, AfterHeader(rules, msg.header), PayloadWire(msg.payload)) == Emit(IDLE, PayloadWire(msg.payload))
  {
    hide ListsChunked, AnnouncesLength, ContentLength, UsesChunked, HeaderLines, SizeLine, TrailerFields, TrailerWire;
    var wire, lines := PayloadWire(msg.payload), HeaderLines(msg.header)[1..];
    ChunkedMeaning(rules, lines);
    match msg.payload
    case Plain(data) =>
      LengthMeaning(rules, lines, |data|);
      if data != [] {
        RunBody(rules, |data|, data);
      }
    case Chunks(parts, lastLine, fields) =>
      ScanChunked(rules, parts, lastLine, fields);
      RunChunk(rules, START, wire);
      assert wire[..|wire|] == wire;
  }

  lemma RunJoin(rules: Rules, m: Mode, a: ByteString, b: ByteString, flow: Flow)
    requires Run(rules, m, a) == flow && flow.Emit?
    ensures Run(rules, m, a + b) == Prepend(flow.out, Run(rules, flow.mode, b))
  {
    RunConcat(rules, m, a, b);
  }

  lemma RunMessage(rules: Rules, msg: Message)
    requires WellFormed(rules, msg)
    ensures Run(rules, IDLE, msg.header + PayloadWire(msg.payload))
         == Emit(IDLE, Rewritten(rules, msg.header) + PayloadWire(msg.payload))
  {
    RunBlock(rules, msg.header);
    RunPayload(rules, msg);
    RunJoin(rules, IDLE, msg.header, PayloadWire(msg.payload), Run(rules, IDLE, msg.header));
  }

  lemma RunFirst(rules: Rules, msg: Message, rest: ByteString)
    requires WellFormed(rules, msg)
    ensures Run(rules, IDLE, msg.header + PayloadWire(msg.payload) + rest)
         == Prepend(Rewritten(rules, msg.header) + PayloadWire(msg.payload), Run(rules, IDLE, rest))
  {
    var wire := msg.header + PayloadWire(msg.payload);
    RunMessage(rules, msg);
    RunJoin(rules, IDLE, wire, rest, Run(rules, IDLE, wire));
  }

  /**
   The wrapper finds every request in the stream: each header block goes out rewritten, each body untouched, and an
   unfinished header block at the end stays in the buffer.
   */
  lemma {:induction false} StreamTransduced(rules: Rules, msgs: seq<Message>, tail: ByteString)
    requires WellFormedStream(rules, msgs)
    requires !Contains(tail, TERMINATOR)
    ensures Run(rules, IDLE, StreamIn(msgs) + tail) == Emit(Head(tail), StreamOut(rules, msgs))
    decreases |msgs|
  {
    hide Step, PayloadWire, Rewritten, WellFormed;
    if msgs == [] {
      assert StreamIn(msgs) + tail == tail;
      assert [] + tail == tail;
      RunQuiet(rules, [], tail);
    } else {
      var more := msgs[1..];
      StreamTransduced(rules, more, tail);
      StreamInFirst(msgs, tail);
      RunFirst(rules, msgs[0], StreamIn(more) + tail);
    }
  }

  lemma StreamInFirst(msgs: seq<Message>, tail: ByteString)
    requires msgs != []
    ensures StreamIn(msgs) + tail == msgs[0].header + PayloadWire(msgs[0].payload) + (StreamIn(msgs[1..]) + tail)
  {
    hide PayloadWire;
    var wire := msgs[0].header + PayloadWire(msgs[0].payload);
    assert StreamIn(msgs) == wire + StreamIn(msgs[1..]);
  }
}
