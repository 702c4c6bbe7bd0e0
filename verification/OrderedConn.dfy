/**
 The connection wrapper: `Write` with its buffered header, body counter and chunk tracker updated in place, over an
 underlying connection that may take part of what it is given and may fail at any call.
 */
module OrderedConn {
  import opened Bytes
  import opened ChunkTracker
  import opened HeaderOrder
  import opened HeaderRewrite
  import opened Numbers
  import opened WireStream

  /** The underlying connection. `accept(call, length)` says how much that call takes and whether it fails. */
  class Conn {
    const accept: (nat, nat) -> (nat, bool)
    var calls: nat
    var sent: ByteString

    constructor (accept: (nat, nat) -> (nat, bool))
      ensures this.accept == accept && sent == []
    {
      this.accept := accept;
      calls, sent := 0, [];
    }

    /** Partial writes are allowed; failures and refusals to take anything are not. */
    ghost predicate Reliable() {
      forall call, length: nat :: length > 0 ==> accept(call, length).0 > 0 && !accept(call, length).1
    }

    method Write(data: ByteString) returns (n: nat, failed: bool)
      modifies this
      ensures n <= |data| && sent == old(sent) + data[..n]
      ensures Reliable() && data != [] ==> n > 0 && !failed
    {
      var reply := accept(calls, |data|);
      n := if reply.0 < |data| then reply.0 else |data|;
      failed := reply.1;
      calls, sent := calls + 1, sent + data[..n];
    }
  }

  /** Writes everything, in as many calls as the connection needs. */
  method WriteAll(conn: Conn, data: ByteString) returns (total: nat, failed: bool)
    modifies conn
    ensures total <= |data| && conn.sent == old(conn.sent) + data[..total]
    ensures !failed ==> total == |data|
    ensures conn.Reliable() ==> !failed
  {
    total, failed := 0, false;
    while total < |data|
      invariant total <= |data|
      invariant conn.sent == old(conn.sent) + data[..total]
    {
      var n, bad := conn.Write(data[total..]);
      assert data[..total] + data[total..][..n] == data[..total + n];
      total := total + n;
      if bad || n == 0 {
        return total, true;
      }
    }
  }

  datatype Status = Fine | Fault | HeaderFault | BadChunk | TooLong

  /** What a reliable connection makes of a write. */
  function Verdict(flow: Flow): Status {
    if flow.Reject? then BadChunk
    else if Fits(flow) then Fine
    else TooLong
  }

  class OrderedRequestConn {
    const conn: Conn
    const rules: Rules
    var header: ByteString
    var bodyRemaining: int
    var chunked: ChunkedRequestTracker?

    ghost function View(): Mode
      reads this, chunked
    {
      if bodyRemaining > 0 then Body(bodyRemaining)
      else if chunked != null then Chunk(chunked.View())
      else Head(header)
    }

    ghost predicate Valid()
      reads this, chunked
    {
      && bodyRemaining >= 0
      && (bodyRemaining > 0 ==> chunked == null)
      && (bodyRemaining > 0 || chunked != null ==> header == [])
      && (chunked != null ==> chunked.Valid())
      && View().Valid()
    }

    constructor (conn: Conn, rules: Rules)
      ensures Valid() && View() == IDLE && this.conn == conn && this.rules == rules && chunked == null
    {
      this.conn, this.rules := conn, rules;
      header, bodyRemaining, chunked := [], 0, null;
    }

    /** The wire and the wrapper after `done`, for a wrapper that was in mode `start` over a wire of `before`. */
    ghost predicate Reached(start: Mode, before: ByteString, done: ByteString)
      reads this, chunked, conn
    {
      var flow := Run(rules, start, done);
      flow.Emit? && View() == flow.mode && conn.sent == before + flow.out
    }

    /** A rewritten header failed to go out whole: the wire has a prefix of it and the wrapper starts afresh. */
    ghost predicate Lost(start: Mode, before: ByteString, done: ByteString)
      reads this, chunked, conn
    {
      var flow := Run(rules, start, done);
      flow.Emit? && View() == IDLE && before <= conn.sent <= before + flow.out
    }

    /** Passes body bytes through, as far as the announced length goes. */
    method WriteBody(rest: ByteString) returns (k: nat, status: Status)
      requires Valid() && bodyRemaining > 0 && rest != []
      modifies this, conn
      ensures Valid() && chunked == old(chunked) && View().Held() == []
      ensures k <= |rest| && Reached(old(View()), old(conn.sent), rest[..k])
      ensures status == Fine || status == Fault
      ensures status == Fine ==> k > 0
      ensures conn.Reliable() ==> status == Fine
    {
      var n := if |rest| < bodyRemaining then |rest| else bodyRemaining;
      var written, failed := WriteAll(conn, rest[..n]);
      assert rest[..n][..written] == rest[..written];
      RunBody(rules, bodyRemaining, rest[..written]);
      bodyRemaining := bodyRemaining - written;
      assert !Contains([], TERMINATOR);
      return written, if failed then Fault else Fine;
    }

    /** Checks the chunk framing on a copy, sends what belongs to the body, and commits what was sent. */
    method WriteChunk(rest: ByteString) returns (k: nat, status: Status)
      requires Valid() && chunked != null && rest != []
      modifies this, chunked, conn
      ensures Valid() && (chunked == null || chunked == old(chunked)) && View().Held() == []
      ensures k <= |rest| && Reached(old(View()), old(conn.sent), rest[..k])
      ensures status == Fine || status == Fault || status == BadChunk
      ensures status == Fine ==> k > 0
      ensures status == BadChunk ==> k == 0 && View().Chunk? && Run(rules, View(), rest) == Reject
      ensures conn.Reliable() ==> status != Fault
    {
      hide Step, Advance;
      ghost var t := chunked.View();
      var preview := chunked.Clone();
      var n, done, bad := preview.Consume(rules, rest);
      RunChunk(rules, t, rest);
      if bad {
        assert conn.sent + [] == conn.sent;
        return 0, BadChunk;
      }
      var written, failed := WriteAll(conn, rest[..n]);
      assert rest[..n][..written] == rest[..written];
      PreviewCommits(rules, t, rest, n, written);
      RunChunk(rules, t, rest[..written]);
      var m, completed, wrong := chunked.Consume(rules, rest[..written]);
      assert !wrong;
      assert rest[..written][..written] == rest[..written];
      if completed {
        chunked := null;
        assert !Contains([], TERMINATOR);
      }
      return written, if failed then Fault else Fine;
    }

    /** A header block is complete: its rewritten form goes out, or is lost. */
    method WriteBlock(block: ByteString) returns (ok: bool)
      requires Valid() && bodyRemaining == 0 && chunked == null && header == []
      requires IsHeader(block)
      modifies this, conn
      ensures Valid() && (chunked == null || fresh(chunked))
      ensures ok ==> View() == AfterHeader(rules, block) && conn.sent == old(conn.sent) + Rewritten(rules, block)
      ensures !ok ==> View() == IDLE && old(conn.sent) <= conn.sent <= old(conn.sent) + Rewritten(rules, block)
      ensures conn.Reliable() ==> ok
    {
      hide Rewritten, BodyChunked, HeaderLines;
      var ordered, length, chunkedBody := OrderRequestHeader(rules, block);
      var written, failed := WriteAll(conn, ordered);
      if failed {
        return false;
      }
      assert ordered[..written] == ordered;
      if chunkedBody {
        chunked := new ChunkedRequestTracker();
      } else {
        bodyRemaining := length;
      }
      return true;
    }

    /** Collects header bytes until a block is complete. */
    method WriteHeader(rest: ByteString) returns (k: nat, status: Status)
      requires Valid() && bodyRemaining == 0 && chunked == null && rest != []
      modifies this, conn
      ensures Valid() && (chunked == null || fresh(chunked))
      ensures 0 < k <= |rest|
      ensures status == Fine || status == TooLong || status == HeaderFault
      ensures status != HeaderFault ==> Reached(old(View()), old(conn.sent), rest[..k])
      ensures status == Fine ==> |View().Held()| <= MAX_BUFFERED
      ensures status == Fine ==> View().Held() == [] || k == |rest|
      ensures status == TooLong ==> k == |rest| && View() == Head(old(header) + rest) && |header| > MAX_BUFFERED
      ensures status == HeaderFault ==> Lost(old(View()), old(conn.sent), rest[..k])
      ensures conn.Reliable() ==> status != HeaderFault
    {
      var whole := header + rest;
      var end := Index(whole, TERMINATOR);
      if end >= 0 {
        k, status := SendFirstBlock(rest, end + 4);
        return;
      }
      RunQuiet(rules, header, rest);
      assert rest[..|rest|] == rest;
      assert conn.sent + [] == conn.sent;
      header := whole;
      return |rest|, if |header| > MAX_BUFFERED then TooLong else Fine;
    }

    /** The buffered bytes and the new ones hold a whole block, ending at `end`. */
    method SendFirstBlock(rest: ByteString, end: nat) returns (k: nat, status: Status)
      requires Valid() && bodyRemaining == 0 && chunked == null
      requires Contains(header + rest, TERMINATOR) && end == Index(header + rest, TERMINATOR) + 4
      modifies this, conn
      ensures Valid() && (chunked == null || fresh(chunked))
      ensures 0 < k <= |rest|
      ensures status == Fine ==> Reached(old(View()), old(conn.sent), rest[..k]) && View().Held() == []
      ensures status != Fine ==> status == HeaderFault && Lost(old(View()), old(conn.sent), rest[..k])
      ensures conn.Reliable() ==> status == Fine
    {
      hide Step, Run, Rewritten, AfterHeader, BodyChunked, BodyLength, HeaderLines;
      ghost var flow := BlockFlow(rules, header, rest);
      var current := Min(|rest|, Max(0, end - |header|));
      assert current == end - |header|;
      var block := (header + rest)[..end];
      header := [];
      assert !Contains([], TERMINATOR);
      var ok := WriteBlock(block);
      return current, if ok then Fine else HeaderFault;
    }

    /** One round of the loop, in whichever of the three modes the wrapper is. */
    method WriteSome(rest: ByteString) returns (k: nat, status: Status)
      requires Valid() && rest != []
      modifies this, chunked, conn
      ensures Valid() && (chunked == null || chunked == old(chunked) || fresh(chunked))
      ensures k <= |rest|
      ensures status != HeaderFault ==> Reached(old(View()), old(conn.sent), rest[..k])
      ensures status == Fine ==> k > 0 && |View().Held()| <= MAX_BUFFERED
      ensures status == BadChunk ==> k == 0 && Run(rules, View(), rest) == Reject
      ensures status == Fine ==> View().Held() == [] || k == |rest|
      ensures status == TooLong ==>
        k == |rest| && View().Head? && |header| > MAX_BUFFERED && header == old(View().Held()) + rest
      ensures status == HeaderFault ==> k > 0 && Lost(old(View()), old(conn.sent), rest[..k])
      ensures conn.Reliable() ==> status != Fault && status != HeaderFault
    {
      if bodyRemaining > 0 {
        k, status := WriteBody(rest);
      } else if chunked != null {
        k, status := WriteChunk(rest);
      } else {
        k, status := WriteHeader(rest);
      }
    }

    /**
     How a write of `p` that returns `n` and `status` leaves the wrapper and the wire. The count is all of `p` when
     the write is fine or a header was lost on the way, the bytes on the wire when the connection failed in a body,
     and the bytes before the refused part otherwise (a header that is too long has been buffered all the same).
     */
    ghost predicate Accounted(start: Mode, before: ByteString, p: ByteString, n: nat, status: Status)
      reads this, chunked, conn
    {
      n <= |p| &&
      match status
      case Fine => n == |p| && Reached(start, before, p) && (p == [] || |View().Held()| <= MAX_BUFFERED)
      case Fault => Reached(start, before, p[..n])
      case BadChunk => Reached(start, before, p[..n]) && Run(rules, start, p) == Reject
      case TooLong =>
        && Reached(start, before, p) && View().Head? && |header| > MAX_BUFFERED
        && n == Max(0, |p| - |header|) && header[|header| - (|p| - n)..] == p[n..]
      case HeaderFault => n == |p| && exists k :: 0 < k <= |p| && Lost(start, before, p[..k])
    }

    /** One round of the loop, seen from the start of the write. */
    method Round(p: ByteString, consumed: nat, ghost start: Mode, ghost before: ByteString)
      returns (k: nat, status: Status)
      requires Valid() && consumed < |p| && Reached(start, before, p[..consumed])
      modifies this, chunked, conn
      ensures Valid() && (chunked == null || chunked == old(chunked) || fresh(chunked))
      ensures consumed + k <= |p|
      ensures status != HeaderFault ==> Reached(start, before, p[..consumed + k])
      ensures status == Fine ==> k > 0 && |View().Held()| <= MAX_BUFFERED
      ensures status == Fine ==> View().Held() == [] || consumed + k == |p|
      ensures status == BadChunk ==> k == 0 && Run(rules, start, p) == Reject
      ensures status == TooLong ==>
        && consumed + k == |p| && View().Head? && |header| > MAX_BUFFERED
        && header == old(View().Held()) + p[consumed..]
      ensures status == HeaderFault ==> k > 0 && Lost(start, before, p[..consumed + k])
      ensures conn.Reliable() ==> status != Fault && status != HeaderFault
    {
      hide Step;
      ghost var flow := Run(rules, start, p[..consumed]);
      k, status := WriteSome(p[consumed..]);
      Continue(rules, start, before, p, consumed, k, flow);
    }

    /** Sends a stream part by part. */
    method Write(p: ByteString) returns (n: nat, status: Status)
      requires Valid()
      modifies this, chunked, conn
      ensures Valid() && (chunked == null || chunked == old(chunked) || fresh(chunked))
      ensures Accounted(old(View()), old(conn.sent), p, n, status)
      ensures conn.Reliable() ==> status == if p == [] then Fine else Verdict(Run(rules, old(View()), p))
    {
      hide Step;
      ghost var start, before := View(), conn.sent;
      var consumed, remaining := 0, p;
      assert conn.sent + [] == conn.sent;
      while |remaining| > 0
        invariant consumed + |remaining| == |p| && remaining == p[consumed..]
        invariant Valid() && (consumed == 0 || |View().Held()| <= MAX_BUFFERED)
        invariant consumed == 0 || consumed == |p| || View().Held() == []
        invariant chunked == null || chunked == old(chunked) || fresh(chunked)
        invariant Reached(start, before, p[..consumed])
        decreases |remaining|
      {
        var k: nat;
        k, status := Round(p, consumed, start, before);
        if status == HeaderFault {
          return |p|, HeaderFault;
        }
        if status == TooLong {
          assert p[..|p|] == p;
          return consumed, TooLong;
        }
        consumed, remaining := consumed + k, remaining[k..];
        if status != Fine {
          return consumed, status;
        }
      }
      assert p[..consumed] == p;
      return |p|, Fine;
    }
  }

  lemma Continue(rules: Rules, start: Mode, before: ByteString, p: ByteString, consumed: nat, k: nat, flow: Flow)
    requires consumed + k <= |p| && flow == Run(rules, start, p[..consumed]) && flow.Emit?
    ensures var more, whole := Run(rules, flow.mode, p[consumed..][..k]), Run(rules, start, p[..consumed + k]);
      if more.Reject? then whole.Reject?
      else whole.Emit? && whole.mode == more.mode && before + whole.out == before + flow.out + more.out
    ensures Run(rules, flow.mode, p[consumed..]).Reject? ==> Run(rules, start, p).Reject?
  {
    hide Step, Run;
    var rest := p[consumed..];
    assert p[..consumed] + rest[..k] == p[..consumed + k];
    RunConcat(rules, start, p[..consumed], rest[..k]);
    assert p == p[..consumed] + rest;
    RunConcat(rules, start, p[..consumed], rest);
    var more := Run(rules, flow.mode, rest[..k]);
    if more.Emit? {
      assert before + (flow.out + more.out) == before + flow.out + more.out;
    }
  }

  lemma BlockFlow(rules: Rules, buffered: ByteString, rest: ByteString) returns (flow: Flow)
    requires !Contains(buffered, TERMINATOR) && Contains(buffered + rest, TERMINATOR)
    ensures var end := Index(buffered + rest, TERMINATOR) + 4;
      && |buffered| < end <= |buffered| + |rest|
      && var block := (buffered + rest)[..end];
        && IsHeader(block)
        && flow == Run(rules, Head(buffered), rest[..end - |buffered|])
        && flow == Emit(AfterHeader(rules, block), Rewritten(rules, block))
    ensures flow.mode.Held() == []
  {
    RunHeader(rules, buffered, rest);
    flow := Run(rules, Head(buffered), rest[..Index(buffered + rest, TERMINATOR) + 4 - |buffered|]);
  }

  /** A caller that sends a stream in the given parts and stops at the first write that is not fine. */
  method SendAll(c: OrderedRequestConn, parts: seq<ByteString>) returns (ok: bool)
    requires c.Valid()
    modifies c, c.chunked, c.conn
    ensures c.Valid()
    ensures ok ==> c.Reached(old(c.View()), old(c.conn.sent), Concat(parts))
    ensures c.conn.Reliable() && Acceptable(c.rules, old(c.View()), Concat(parts)) ==> ok
    decreases |parts|
  {
    assert c.conn.sent + [] == c.conn.sent;
    if parts == [] {
      return true;
    }
    ghost var start, before, rest := c.View(), c.conn.sent, Concat(parts[1..]);
    if Acceptable(c.rules, start, parts[0] + rest) {
      AcceptableSplit(c.rules, start, parts[0], rest);
    }
    var n, status := c.Write(parts[0]);
    if status != Fine {
      return false;
    }
    ok := SendAll(c, parts[1..]);
    Onward(c.rules, start, before, parts[0], rest);
  }

  lemma Onward(rules: Rules, start: Mode, before: ByteString, a: ByteString, b: ByteString)
    ensures var flow, whole := Run(rules, start, a), Run(rules, start, a + b);
      flow.Emit? ==>
        var more := Run(rules, flow.mode, b);
        if more.Reject? then whole.Reject?
        else whole.Emit? && whole.mode == more.mode && before + whole.out == before + flow.out + more.out
  {
    hide Step;
    var p := a + b;
    assert p[..|a|] == a && p[|a|..] == b && b[..|b|] == b && p[..|a| + |b|] == p;
    var flow := Run(rules, start, a);
    if flow.Emit? {
      Continue(rules, start, before, p, |a|, |b|, flow);
    }
  }

  /**
   After the connection failed in a body, the caller resends what was not counted; if that write is fine, the wire
   and the wrapper are as if nothing had failed.
   */
  method ResendRest(c: OrderedRequestConn, p: ByteString, n: nat, ghost start: Mode, ghost before: ByteString)
    returns (ok: bool)
    requires c.Valid() && n <= |p| && c.Reached(start, before, p[..n])
    modifies c, c.chunked, c.conn
    ensures c.Valid()
    ensures ok ==> c.Reached(start, before, p)
    ensures c.conn.Reliable() ==> (ok <==> n == |p| || Fits(Run(c.rules, start, p)))
  {
    hide Step;
    var m, status := c.Write(p[n..]);
    Onward(c.rules, start, before, p[..n], p[n..]);
    assert p[..n] + p[n..] == p;
    return status == Fine;
  }

  /**
   An unfinished header is taken while it is no longer than a mebibyte; a longer one is refused with a count of zero and
   buffered all the same.
   */
  method OfferHeader(c: OrderedRequestConn, p: ByteString, ghost buffered: ByteString) returns (n: nat, status: Status)
    requires c.Valid() && c.View() == Head(buffered) && c.conn.Reliable()
    requires !Contains(buffered + p, TERMINATOR) && p != []
    modifies c, c.chunked, c.conn
    ensures c.Valid() && (c.chunked == null || c.chunked == old(c.chunked) || fresh(c.chunked))
    ensures if |buffered + p| <= 1048576 then status == Fine && n == |p| else status == TooLong && n == 0
    ensures c.View() == Head(buffered + p) && c.conn.sent == old(c.conn.sent)
  {
    hide Step, Run, Contains;
    RunQuiet(c.rules, buffered, p);
    assert c.conn.sent + [] == c.conn.sent;
    n, status := c.Write(p);
  }

  /** So a caller that offers the bytes of an over-long header again has them in the buffer twice. */
  method OverlongIsBuffered(c: OrderedRequestConn, p: ByteString) returns (counted: nat)
    requires c.Valid() && c.View() == IDLE && c.conn.Reliable()
    requires !Contains(p + p, TERMINATOR) && |p| > 1048576
    modifies c, c.chunked, c.conn
    ensures counted == 0 && c.View() == Head(p + p) && c.conn.sent == old(c.conn.sent)
  {
    hide Contains;
    PrefixLacks(p, p);
    assert [] + p == p;
    var first, status := OfferHeader(c, p, []);
    var second;
    second, status := OfferHeader(c, p, p);
    return first + second;
  }

  function Min(a: int, b: int): int { if a < b then a else b }

  function Max(a: int, b: int): int { if a > b then a else b }
}
