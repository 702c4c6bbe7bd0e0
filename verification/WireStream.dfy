/**
 The ordering wrapper as a byte-at-a-time transducer: what a stream of request bytes becomes on the wire,
 independent of how callers cut it into writes.
 */
module WireStream {
  import opened Bytes
  import opened ChunkTracker
  import opened HeaderOrder
  import opened HeaderRewrite
  import opened Numbers

  datatype Mode = Head(buffered: ByteString) | Body(remaining: nat) | Chunk(tracker: Tracker)
  {
    ghost predicate Valid() {
      match this
      case Head(buffered) => !Contains(buffered, TERMINATOR)
      case Body(remaining) => 0 < remaining <= MAX_INT
      case Chunk(tracker) => tracker.Valid()
    }

    /** The bytes accepted from callers and not yet sent. */
    function Held(): ByteString {
      if Head? then buffered else []
    }
  }

  const IDLE: Mode := Head([])

  datatype Flow = Emit(mode: Mode, out: ByteString) | Reject

  function AfterHeader(rules: Rules, header: ByteString): Mode
    requires |header| >= 4
  {
    if BodyChunked(rules, header) then Chunk(START)
    else if BodyLength(rules, header) > 0 then Body(BodyLength(rules, header))
    else IDLE
  }

  function Step(rules: Rules, m: Mode, b: byte): Flow {
    match m
    case Head(buffered) =>
      var header := buffered + [b];
      if EndsWith(header, TERMINATOR) then Emit(AfterHeader(rules, header), Rewritten(rules, header))
      else Emit(Head(header), [])
    case Body(remaining) => Emit(if remaining <= 1 then IDLE else Body(remaining - 1), [b])
    case Chunk(tracker) =>
      match Advance(rules, tracker, b)
      case More(t) => Emit(Chunk(t), [b])
      case Done => Emit(IDLE, [b])
      case Invalid => Reject
  }

  function Prepend(out: ByteString, flow: Flow): Flow {
    if flow.Reject? then Reject else Emit(flow.mode, out + flow.out)
  }

  function Run(rules: Rules, m: Mode, s: ByteString): Flow
    decreases |s|
  {
    if s == [] then Emit(m, [])
    else
      match Step(rules, m, s[0])
      case Reject => Reject
      case Emit(m', out) => Prepend(out, Run(rules, m', s[1..]))
  }

  function Resume(rules: Rules, flow: Flow, s: ByteString): Flow {
    if flow.Reject? then Reject else Prepend(flow.out, Run(rules, flow.mode, s))
  }

  lemma {:induction false} RunConcat(rules: Rules, m: Mode, a: ByteString, b: ByteString)
    ensures Run(rules, m, a + b) == Resume(rules, Run(rules, m, a), b)
    decreases |a|
  {
    hide Step;
    if a == [] {
      assert a + b == b;
      assert Prepend([], Run(rules, m, b)) == Run(rules, m, b);
    } else {
      var step := Step(rules, m, a[0]);
      assert (a + b)[0] == a[0] && (a + b)[1..] == a[1..] + b;
      if step.Emit? {
        RunConcat(rules, step.mode, a[1..], b);
        var first := Run(rules, step.mode, a[1..]);
        if first.Emit? {
          PrependTwice(step.out, first.out, Run(rules, first.mode, b));
        }
      }
    }
  }

  lemma PrependTwice(a: ByteString, b: ByteString, flow: Flow)
    ensures Prepend(a, Prepend(b, flow)) == Prepend(a + b, flow)
  {
    if flow.Emit? {
      assert a + (b + flow.out) == (a + b) + flow.out;
    }
  }

  // ---------- Long strides within one mode ----------

  lemma NewTerminator(buffered: ByteString, b: byte)
    requires !Contains(buffered, TERMINATOR) && Contains(buffered + [b], TERMINATOR)
    ensures EndsWith(buffered + [b], TERMINATOR)
  {
    var i :| 0 <= i <= |buffered| + 1 && OccursAt(buffered + [b], TERMINATOR, i);
    if i + 4 <= |buffered| {
      assert buffered[i..i + 4] == (buffered + [b])[i..i + 4];
      assert OccursAt(buffered, TERMINATOR, i);
    }
  }

  lemma PrefixLacks(a: ByteString, b: ByteString)
    requires !Contains(a + b, TERMINATOR)
    ensures !Contains(a, TERMINATOR)
  {
    if i :| 0 <= i <= |a| && OccursAt(a, TERMINATOR, i) {
      assert (a + b)[i..i + 4] == a[i..i + 4];
      assert OccursAt(a + b, TERMINATOR, i);
    }
  }

  lemma {:induction false} RunQuiet(rules: Rules, buffered: ByteString, s: ByteString)
    requires !Contains(buffered + s, TERMINATOR)
    ensures Run(rules, Head(buffered), s) == Emit(Head(buffered + s), [])
    decreases |s|
  {
    if s == [] {
      assert buffered + s == buffered;
    } else {
      var grown := buffered + [s[0]];
      assert buffered + s == grown + s[1..];
      PrefixLacks(grown, s[1..]);
      RunQuiet(rules, grown, s[1..]);
    }
  }

  /** The bytes up to the first terminator make up one header block. */
  lemma FirstBlock(whole: ByteString)
    requires Contains(whole, TERMINATOR)
    ensures var end := Index(whole, TERMINATOR) + 4;
      end <= |whole| && IsHeader(whole[..end]) && !Contains(whole[..end - 1], TERMINATOR)
  {
    var end := Index(whole, TERMINATOR) + 4;
    var block := whole[..end];
    assert block[end - 4..end] == whole[end - 4..end];
    assert OccursAt(block, TERMINATOR, end - 4);
    forall j | 0 <= j < end - 4 ensures !OccursAt(block, TERMINATOR, j) {
      assert block[j..j + 4] == whole[j..j + 4];
      assert !OccursAt(whole, TERMINATOR, j);
    }
    var quiet := whole[..end - 1];
    if Contains(quiet, TERMINATOR) {
      var j := Index(quiet, TERMINATOR);
      assert quiet[j..j + 4] == whole[j..j + 4];
      assert OccursAt(whole, TERMINATOR, j);
    }
  }

  lemma RunHeader(rules: Rules, buffered: ByteString, s: ByteString)
    requires !Contains(buffered, TERMINATOR) && Contains(buffered + s, TERMINATOR)
    ensures var end := Index(buffered + s, TERMINATOR) + 4;
      && |buffered| < end <= |buffered| + |s|
      && var block := (buffered + s)[..end];
        && IsHeader(block)
        && Run(rules, Head(buffered), s[..end - |buffered|]) == Emit(AfterHeader(rules, block), Rewritten(rules, block))
  {
    hide Step, Run, Rewritten, AfterHeader;
    var whole := buffered + s;
    var end := Index(whole, TERMINATOR) + 4;
    FirstBlock(whole);
    TerminatorIsNew(buffered, s);
    var k := end - |buffered|;
    var quiet, last := s[..k - 1], s[k - 1];
    assert buffered + quiet == whole[..end - 1];
    assert whole[..end] == whole[..end - 1] + [last];
    RunLastByte(rules, buffered, quiet, last);
    assert s[..k] == quiet + [last];
  }

  /** The buffered header never holds a terminator, so the first one ends among the new bytes. */
  lemma TerminatorIsNew(buffered: ByteString, s: ByteString)
    requires !Contains(buffered, TERMINATOR) && Contains(buffered + s, TERMINATOR)
    ensures |buffered| < Index(buffered + s, TERMINATOR) + 4
  {
    var i := Index(buffered + s, TERMINATOR);
    if i + 4 <= |buffered| {
      assert buffered[i..i + 4] == (buffered + s)[i..i + 4];
      assert OccursAt(buffered, TERMINATOR, i);
    }
  }

  lemma RunLastByte(rules: Rules, buffered: ByteString, quiet: ByteString, last: byte)
    requires !Contains(buffered + quiet, TERMINATOR) && EndsWith(buffered + quiet + [last], TERMINATOR)
    ensures var block := buffered + quiet + [last];
      Run(rules, Head(buffered), quiet + [last]) == Emit(AfterHeader(rules, block), Rewritten(rules, block))
  {
    hide Rewritten, AfterHeader;
    RunQuiet(rules, buffered, quiet);
    RunConcat(rules, Head(buffered), quiet, [last]);
    RunOne(rules, Head(buffered + quiet), last);
    var block := buffered + quiet + [last];
    assert [] + Rewritten(rules, block) == Rewritten(rules, block);
  }

  lemma RunOne(rules: Rules, m: Mode, b: byte)
    ensures Run(rules, m, [b]) == Step(rules, m, b)
  {
    assert [b][1..] == [];
    var step := Step(rules, m, b);
    if step.Emit? {
      assert step.out + [] == step.out;
    }
  }

  lemma {:induction false} RunBody(rules: Rules, n: nat, s: ByteString)
    requires 0 < n && |s| <= n
    ensures Run(rules, Body(n), s) == Emit(if |s| == n then IDLE else Body(n - |s|), s)
    decreases |s|
  {
    if s == [] {
    } else if n == 1 {
      assert s[1..] == [];
      assert s == [s[0]];
    } else {
      RunBody(rules, n - 1, s[1..]);
      assert s == [s[0]] + s[1..];
    }
  }

  lemma {:induction false} RunChunk(rules: Rules, t: Tracker, s: ByteString)
    ensures match ScanFrom(rules, t, s)
      case Open(t') => Run(rules, Chunk(t), s) == Emit(Chunk(t'), s)
      case Complete(n) => Run(rules, Chunk(t), s[..n]) == Emit(IDLE, s[..n])
      case Malformed => Run(rules, Chunk(t), s) == Reject
    decreases |s|
  {
    hide Advance, Rewritten, AfterHeader, EndsWith;
    if s != [] {
      var p := Advance(rules, t, s[0]);
      assert s == [s[0]] + s[1..];
      if p.More? {
        RunChunk(rules, p.tracker, s[1..]);
        var scan := ScanFrom(rules, t, s);
        if scan.Complete? {
          assert s[..scan.length][1..] == s[1..][..scan.length - 1];
          assert s[..scan.length] == [s[0]] + s[1..][..scan.length - 1];
        }
      } else if p.Done? {
        assert s[..1] == [s[0]];
        RunOne(rules, Chunk(t), s[0]);
      }
    }
  }

  // ---------- What every run keeps ----------

  lemma StepKeeps(rules: Rules, m: Mode, b: byte)
    requires m.Valid()
    ensures var step := Step(rules, m, b);
      step.Emit? ==> step.mode.Valid() && multiset(step.out + step.mode.Held()) == multiset(m.Held() + [b])
  {
    hide Rewritten, BodyChunked, HeaderLines, ContentLength;
    if m.Head? {
      var header := m.buffered + [b];
      if EndsWith(header, TERMINATOR) {
        RewrittenSameBytes(rules, header);
        assert !Contains([], TERMINATOR);
      } else if Contains(header, TERMINATOR) {
        NewTerminator(m.buffered, b);
      }
    } else {
      assert !Contains([], TERMINATOR);
      assert m.Held() + [b] == [b];
    }
  }

  lemma {:induction false} RunConservesBag(rules: Rules, m: Mode, s: ByteString)
    requires m.Valid()
    ensures var flow := Run(rules, m, s);
      flow.Emit? ==> flow.mode.Valid() && multiset(flow.out + flow.mode.Held()) == multiset(m.Held() + s)
    decreases |s|
  {
    hide Step;
    if s == [] {
      assert m.Held() + s == m.Held();
      assert [] + m.Held() == m.Held();
    } else {
      var step := Step(rules, m, s[0]);
      if step.Emit? {
        StepKeeps(rules, m, s[0]);
        RunConservesBag(rules, step.mode, s[1..]);
        var more := Run(rules, step.mode, s[1..]);
        if more.Emit? {
          BagStep(m.Held(), s, step.out, step.mode.Held(), more.out, more.mode.Held());
        }
      }
    }
  }

  lemma BagStep(held: ByteString, s: ByteString, out: ByteString, held': ByteString, more: ByteString,
                held'': ByteString)
    requires s != []
    requires multiset(out + held') == multiset(held + [s[0]])
    requires multiset(more + held'') == multiset(held' + s[1..])
    ensures multiset(out + more + held'') == multiset(held + s)
  {
    assert s == [s[0]] + s[1..];
    calc {
      multiset(out + more + held'');
      multiset(out) + multiset(more + held'');
      multiset(out + held') + multiset(s[1..]);
      multiset(held) + multiset(s);
    }
  }

  /** Conservation: the bytes out plus the bytes held are the bytes held before plus the bytes in. */
  lemma RunConserves(rules: Rules, m: Mode, s: ByteString)
    requires m.Valid()
    ensures var flow := Run(rules, m, s);
      flow.Emit? ==>
        && flow.mode.Valid()
        && multiset(flow.out + flow.mode.Held()) == multiset(m.Held() + s)
        && |flow.out| + |flow.mode.Held()| == |m.Held()| + |s|
  {
    RunConservesBag(rules, m, s);
    var flow := Run(rules, m, s);
    if flow.Emit? {
      assert |multiset(flow.out + flow.mode.Held())| == |multiset(m.Held() + s)|;
    }
  }

  // ---------- Cutting the stream ----------

  predicate Fits(flow: Flow) {
    flow.Emit? && |flow.mode.Held()| <= MAX_BUFFERED
  }

  /** One error-free write: refused if the chunk framing breaks or too much header is left unsent. */
  function WriteFlow(rules: Rules, m: Mode, p: ByteString): Flow {
    var flow := Run(rules, m, p);
    if Fits(flow) then flow else Reject
  }

  function Concat(parts: seq<ByteString>): ByteString {
    if parts == [] then [] else parts[0] + Concat(parts[1..])
  }

  /** A series of writes that stops at the first refusal. */
  function SessionFlow(rules: Rules, m: Mode, parts: seq<ByteString>): Flow
    decreases |parts|
  {
    if parts == [] then Emit(m, [])
    else
      match WriteFlow(rules, m, parts[0])
      case Reject => Reject
      case Emit(m', out) => Prepend(out, SessionFlow(rules, m', parts[1..]))
  }

  /** Chunk framing is sound, and at no point is an unfinished header block over the limit. */
  ghost predicate Acceptable(rules: Rules, m: Mode, s: ByteString) {
    forall k :: 0 <= k <= |s| ==> Fits(Run(rules, m, s[..k]))
  }

  lemma AcceptableSplit(rules: Rules, m: Mode, a: ByteString, b: ByteString)
    requires Acceptable(rules, m, a + b)
    ensures Fits(Run(rules, m, a))
    ensures Acceptable(rules, Run(rules, m, a).mode, b)
  {
    hide Step;
    assert (a + b)[..|a|] == a;
    var m' := Run(rules, m, a).mode;
    forall k | 0 <= k <= |b| ensures Fits(Run(rules, m', b[..k])) {
      assert (a + b)[..|a| + k] == a + b[..k];
      RunConcat(rules, m, a, b[..k]);
    }
  }

  lemma {:induction false} SessionIsRun(rules: Rules, m: Mode, parts: seq<ByteString>)
    requires Acceptable(rules, m, Concat(parts))
    ensures SessionFlow(rules, m, parts) == Run(rules, m, Concat(parts))
    decreases |parts|
  {
    hide Step;
    if parts != [] {
      var p, rest := parts[0], parts[1..];
      AcceptableSplit(rules, m, p, Concat(rest));
      SessionIsRun(rules, Run(rules, m, p).mode, rest);
      RunConcat(rules, m, p, Concat(rest));
    }
  }

  lemma TwoParts(s: ByteString, k: nat)
    requires k <= |s|
    ensures Concat([s[..k], s[k..]]) == s
  {
    var a, b := s[..k], s[k..];
    var two: seq<ByteString>, one: seq<ByteString> := [a, b], [b];
    assert two[1..] == one && Concat(two) == a + Concat(one);
    assert Concat(one) == b + Concat(one[1..]);
    assert Concat(one[1..]) == [];
    assert s == a + (b + []);
  }

  /**
   Segmentation independence, exactly: all the ways to cut a stream into writes succeed if and only if the stream
   is acceptable, and then they all leave the same bytes on the wire and the same bytes held.
   */
  lemma SegmentationIndependent(rules: Rules, m: Mode, s: ByteString)
    ensures Acceptable(rules, m, s) <==> forall parts :: Concat(parts) == s ==> SessionFlow(rules, m, parts).Emit?
    ensures Acceptable(rules, m, s) ==>
      forall parts :: Concat(parts) == s ==> SessionFlow(rules, m, parts) == Run(rules, m, s)
  {
    hide Step, Run;
    if Acceptable(rules, m, s) {
      assert s[..|s|] == s;
      forall parts | Concat(parts) == s ensures SessionFlow(rules, m, parts) == Run(rules, m, s) {
        SessionIsRun(rules, m, parts);
      }
    } else {
      var k :| 0 <= k <= |s| && !Fits(Run(rules, m, s[..k]));
      TwoParts(s, k);
      assert SessionFlow(rules, m, [s[..k], s[k..]]) == Reject;
    }
  }
}
