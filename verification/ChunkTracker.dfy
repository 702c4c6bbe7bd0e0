/**
 The tracker that follows a chunked request body (section 7.1 of RFC 9112) to find where the next request starts.

 `Tracker` and `Advance` give the body format as a byte-at-a-time automaton; the class below consumes whole slices
 in place and is proved against it.
 */
module ChunkTracker {
  import opened Bytes
  import opened HeaderOrder
  import opened Numbers
  import opened Options

  const MAX_BUFFERED: nat := 0x10_0000

  const SEMICOLON: ByteString := [59]

  datatype Tracker =
    | InSize(line: ByteString)
    | InData(remaining: nat)
    | InDataEnd(position: nat)
    | InTrailers(trailers: ByteString)
  {
    ghost predicate Valid() {
      match this
      case InSize(line) => |line| <= MAX_BUFFERED && !EndsWith(line, CRLF)
      case InData(remaining) => 0 < remaining <= MAX_INT
      case InDataEnd(position) => position < 2
      case InTrailers(trailers) => |trailers| <= MAX_BUFFERED && !TrailersDone(trailers)
    }
  }

  const START: Tracker := InSize([])

  datatype Progress = More(tracker: Tracker) | Done | Invalid

  /** The size announced by a chunk-size line, without its extension. */
  function ChunkSize(rules: Rules, line: ByteString): (size: Option<nat>)
    ensures size.Some? ==> size.value <= MAX_INT
  {
    var text := rules.trim(line);
    var extension := Index(text, SEMICOLON);
    var digits := if extension >= 0 then rules.trim(text[..extension]) else text;
    match ParseInt64(digits, 16)
    case None => None
    case Some(n) => if n < 0 then None else Some(n)
  }

  predicate TrailersDone(trailers: ByteString) {
    trailers == CRLF || EndsWith(trailers, TERMINATOR)
  }

  function AfterSizeLine(rules: Rules, line: ByteString): Progress
    requires |line| >= 2
  {
    match ChunkSize(rules, line[..|line| - 2])
    case None => Invalid
    case Some(size) => More(if size == 0 then InTrailers([]) else InData(size))
  }

  /** One byte of a chunked body. */
  function Advance(rules: Rules, t: Tracker, b: byte): (p: Progress)
    ensures t.Valid() && p.More? ==> p.tracker.Valid()
  {
    match t
    case InSize(line) =>
      var line' := line + [b];
      if |line'| > MAX_BUFFERED then Invalid
      else if !EndsWith(line', CRLF) then More(InSize(line'))
      else AfterSizeLine(rules, line')
    case InData(remaining) =>
      More(if remaining <= 1 then InDataEnd(0) else InData(remaining - 1))
    case InDataEnd(position) =>
      if b != (if position == 0 then CR else LF) then Invalid
      else More(if position == 0 then InDataEnd(1) else START)
    case InTrailers(trailers) =>
      var trailers' := trailers + [b];
      if |trailers'| > MAX_BUFFERED then Invalid
      else if TrailersDone(trailers') then Done
      else More(InTrailers(trailers'))
  }

  /** All of `data` taken and the body still open; or the body complete after `length` bytes; or malformed. */
  datatype Scan = Open(tracker: Tracker) | Complete(length: nat) | Malformed

  function Shift(scan: Scan, n: nat): Scan {
    if scan.Complete? then Complete(scan.length + n) else scan
  }

  function ScanFrom(rules: Rules, t: Tracker, data: ByteString): (scan: Scan)
    ensures t.Valid() && scan.Open? ==> scan.tracker.Valid()
    ensures scan.Complete? ==> 0 < scan.length <= |data|
    decreases |data|
  {
    if data == [] then Open(t)
    else
      match Advance(rules, t, data[0])
      case More(t') => Shift(ScanFrom(rules, t', data[1..]), 1)
      case Done => Complete(1)
      case Invalid => Malformed
  }

  lemma ScanNothing(rules: Rules, t: Tracker)
    ensures ScanFrom(rules, t, []) == Open(t)
  {
  }

  lemma {:induction false} ScanData(rules: Rules, n: nat, data: ByteString, k: nat)
    requires k <= |data| && k <= n && 0 < n
    ensures ScanFrom(rules, InData(n), data)
         == Shift(ScanFrom(rules, if k == n then InDataEnd(0) else InData(n - k), data[k..]), k)
    decreases k
  {
    if k == 0 {
      assert data[0..] == data;
    } else if n == 1 {
    } else {
      ScanData(rules, n - 1, data[1..], k - 1);
      assert data[1..][k - 1..] == data[k..];
    }
  }

  /** Scanning in two parts is scanning at once, as long as the first part neither completes nor breaks. */
  lemma {:induction false} ScanSplit(rules: Rules, t: Tracker, data: ByteString, k: nat)
    requires k <= |data|
    ensures match ScanFrom(rules, t, data[..k])
      case Open(t') => ScanFrom(rules, t, data) == Shift(ScanFrom(rules, t', data[k..]), k)
      case Complete(n) => ScanFrom(rules, t, data) == Complete(n)
      case Malformed => ScanFrom(rules, t, data) == Malformed
    decreases k
  {
    hide Advance;
    if k == 0 {
      assert data[0..] == data;
    } else {
      var p := Advance(rules, t, data[0]);
      assert data[..k][1..] == data[1..][..k - 1];
      if p.More? {
        ScanSplit(rules, p.tracker, data[1..], k - 1);
        assert data[1..][k - 1..] == data[k..];
      }
    }
  }

  /** What the preview accepts, the commit of any written prefix accepts, completing only at the full length. */
  lemma PreviewCommits(rules: Rules, t: Tracker, data: ByteString, accepted: nat, written: nat)
    requires written <= accepted <= |data|
    requires var scan := ScanFrom(rules, t, data);
      (scan.Open? && accepted == |data|) || scan == Complete(accepted)
    ensures var scan, commit := ScanFrom(rules, t, data), ScanFrom(rules, t, data[..written]);
      && !commit.Malformed?
      && (commit.Complete? <==> scan.Complete? && written == accepted)
  {
    ScanSplit(rules, t, data, written);
  }

  class ChunkedRequestTracker {
    var phase: int
    var line: ByteString
    var dataRemaining: int
    var crlfPosition: int
    var trailers: ByteString

    ghost function View(): Tracker
      reads this
    {
      if phase == 0 then InSize(line)
      else if phase == 1 then InData(if dataRemaining < 0 then 0 else dataRemaining)
      else if phase == 2 then InDataEnd(if crlfPosition < 0 then 0 else crlfPosition)
      else InTrailers(trailers)
    }

    ghost predicate Valid()
      reads this
    {
      && 0 <= phase <= 3
      && (phase == 1 ==> dataRemaining > 0)
      && (phase == 2 ==> crlfPosition >= 0)
      && (phase != 0 ==> line == [])
      && (phase != 3 ==> trailers == [])
      && View().Valid()
    }

    constructor ()
      ensures Valid() && View() == START
    {
      phase, line, dataRemaining, crlfPosition, trailers := 0, [], 0, 0, [];
    }

    method Clone() returns (copy: ChunkedRequestTracker)
      requires Valid()
      ensures fresh(copy) && copy.Valid() && copy.View() == View()
    {
      copy := new ChunkedRequestTracker();
      copy.phase, copy.line, copy.dataRemaining, copy.crlfPosition, copy.trailers :=
        phase, line, dataRemaining, crlfPosition, trailers;
    }

    /** What one round of the loop does to the fields, when it consumes a single byte. */
    twostate predicate Advanced(rules: Rules, b: byte, completed: bool, failed: bool)
      reads this
    {
      match Advance(rules, old(View()), b)
      case More(t) => !failed && !completed && Valid() && View() == t
      case Done => !failed && completed
      case Invalid => failed && !completed
    }

    method ConsumeSizeByte(rules: Rules, b: byte) returns (failed: bool)
      requires Valid() && phase == 0
      modifies this
      ensures Advanced(rules, b, false, failed)
    {
      line := line + [b];
      if |line| > MAX_BUFFERED {
        return true;
      }
      if !EndsWith(line, CRLF) {
        return false;
      }
      var size := ChunkSize(rules, line[..|line| - 2]);
      if size == None {
        return true;
      }
      line := [];
      if size.value == 0 {
        phase := 3;
      } else {
        dataRemaining := size.value;
        phase := 1;
      }
      return false;
    }

    method ConsumeDataEndByte(rules: Rules, b: byte) returns (failed: bool)
      requires Valid() && phase == 2
      modifies this
      ensures Advanced(rules, b, false, failed)
    {
      if b != (if crlfPosition == 0 then CR else LF) {
        return true;
      }
      crlfPosition := crlfPosition + 1;
      if crlfPosition == 2 {
        phase := 0;
      }
      return false;
    }

    method ConsumeTrailerByte(rules: Rules, b: byte) returns (completed: bool, failed: bool)
      requires Valid() && phase == 3
      modifies this
      ensures Advanced(rules, b, completed, failed)
    {
      trailers := trailers + [b];
      if |trailers| > MAX_BUFFERED {
        return false, true;
      }
      return TrailersDone(trailers), false;
    }

    /** One round of the loop: a single framing byte, or as much chunk data as there is. */
    method ConsumeSome(rules: Rules, data: ByteString) returns (n: nat, completed: bool, failed: bool)
      requires Valid() && data != []
      modifies this
      ensures n <= |data| && !(completed && failed)
      ensures completed ==> ScanFrom(rules, old(View()), data) == Complete(n)
      ensures failed ==> ScanFrom(rules, old(View()), data) == Malformed
      ensures !completed && !failed ==>
        n > 0 && Valid() && ScanFrom(rules, old(View()), data) == Shift(ScanFrom(rules, View(), data[n..]), n)
    {
      n, completed, failed := 1, false, false;
      if phase == 0 {
        failed := ConsumeSizeByte(rules, data[0]);
      } else if phase == 1 {
        n := if |data| < dataRemaining then |data| else dataRemaining;
        ScanData(rules, dataRemaining, data, n);
        dataRemaining := dataRemaining - n;
        if dataRemaining == 0 {
          crlfPosition := 0;
          phase := 2;
        }
      } else if phase == 2 {
        failed := ConsumeDataEndByte(rules, data[0]);
        n := if failed then 0 else 1;
      } else {
        completed, failed := ConsumeTrailerByte(rules, data[0]);
      }
    }

    /** Consumes `data` as far as the body goes. */
    method Consume(rules: Rules, data: ByteString) returns (consumed: nat, completed: bool, failed: bool)
      requires Valid()
      modifies this
      ensures consumed <= |data|
      ensures match ScanFrom(rules, old(View()), data)
        case Open(t) => !failed && !completed && consumed == |data| && Valid() && View() == t
        case Complete(n) => !failed && completed && consumed == n
        case Malformed => failed && !completed
    {
      hide Advance, ScanFrom;
      ghost var scan := ScanFrom(rules, View(), data);
      consumed := 0;
      assert data[0..] == data;
      while consumed < |data|
        invariant consumed <= |data|
        invariant Valid()
        invariant scan == Shift(ScanFrom(rules, View(), data[consumed..]), consumed)
      {
        var n, done, bad := ConsumeSome(rules, data[consumed..]);
        if bad || done {
          return consumed + n, done, bad;
        }
        assert data[consumed..][n..] == data[consumed + n..];
        consumed := consumed + n;
      }
      assert data[consumed..] == [];
      ScanNothing(rules, View());
      return consumed, false, false;
    }
  }
}
