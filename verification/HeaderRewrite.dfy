/**
 One request header block as it goes through the ordering wrapper: what the rewriting keeps of the message, and
 the in-place loops that compute it.
 */
module HeaderRewrite {
  import opened Bytes
  import opened HeaderOrder
  import opened Options
  import opened StableOrder

  /** A block that holds the blank-line terminator at its end and nowhere earlier. */
  predicate IsHeader(header: ByteString) {
    |header| >= 4 && Index(header, TERMINATOR) == |header| - 4
  }

  function HeaderLines(header: ByteString): (lines: seq<ByteString>)
    requires |header| >= 4
    ensures |lines| > 0
    ensures forall line :: line in lines ==> !Contains(line, CRLF)
  {
    Split(header[..|header| - 4], CRLF)
  }

  /** Method and target, when the request line has at least three parts. */
  function RequestParts(line: ByteString): Option<(ByteString, ByteString)> {
    var first := Index(line, SPACE);
    if first < 0 then None
    else
      var rest := line[first + 1..];
      var second := Index(rest, SPACE);
      if second < 0 then None else Some((line[..first], rest[..second]))
  }

  function Desired(rules: Rules, requestLine: ByteString): seq<ByteString> {
    match RequestParts(requestLine)
    case None => []
    case Some(parts) => rules.order(parts.0, parts.1)
  }

  function RewrittenLines(rules: Rules, lines: seq<ByteString>): (r: seq<ByteString>)
    requires |lines| > 0
    ensures |r| > 0 && r[0] == lines[0]
  {
    var desired := Desired(rules, lines[0]);
    if desired == [] then lines else [lines[0]] + OrderLines(rules, desired, lines[1..])
  }

  /** The header block that is sent in place of `header`. */
  function Rewritten(rules: Rules, header: ByteString): ByteString
    requires |header| >= 4
  {
    JoinLines(RewrittenLines(rules, HeaderLines(header))) + CRLF
  }

  function BodyLength(rules: Rules, header: ByteString): nat
    requires |header| >= 4
  {
    ContentLength(rules, HeaderLines(header)[1..])
  }

  predicate BodyChunked(rules: Rules, header: ByteString)
    requires |header| >= 4
  {
    UsesChunked(rules, HeaderLines(header)[1..])
  }

  // ---------- Blocks and lines ----------

  lemma HeaderIsItsLines(header: ByteString)
    requires EndsWith(header, TERMINATOR)
    ensures header == JoinLines(HeaderLines(header)) + CRLF
  {
    var text := header[..|header| - 4];
    JoinOfSplit(text);
    assert header[|header| - 4..] == TERMINATOR;
    assert header == text + CRLF + CRLF;
  }

  lemma NoEmptyLater(header: ByteString)
    requires IsHeader(header)
    ensures [] !in HeaderLines(header)[1..]
  {
    var lines := HeaderLines(header);
    HeaderIsItsLines(header);
    if [] in lines[1..] {
      var k :| 1 <= k < |lines| && lines[k] == [];
      EmptyLineMeansTerminator(lines, k);
      EarlyTerminator(lines, header, |JoinLines(lines[..k])| - 2);
    }
  }

  /** A terminator inside the joined lines is an earlier terminator of the block. */
  lemma EarlyTerminator(lines: seq<ByteString>, header: ByteString, i: nat)
    requires header == JoinLines(lines) + CRLF
    requires OccursAt(JoinLines(lines), TERMINATOR, i)
    ensures OccursAt(header, TERMINATOR, i) && i < |header| - 4
  {
    assert header[i..i + 4] == JoinLines(lines)[i..i + 4];
  }

  /** Lines without line ends, and with no empty line after the first, make up exactly one header block. */
  lemma LinesMakeHeader(lines: seq<ByteString>)
    requires |lines| > 0 && [] !in lines[1..]
    requires forall line :: line in lines ==> !Contains(line, CRLF)
    ensures var header := JoinLines(lines) + CRLF; IsHeader(header) && HeaderLines(header) == lines
  {
    var joined := JoinLines(lines);
    var header := joined + CRLF;
    var text := BlockText(lines);
    SplitOfJoin(lines, text);
    assert OccursAt(header, TERMINATOR, |header| - 4);
    var i := Index(header, TERMINATOR);
    if i < |header| - 4 {
      TerminatorInLines(lines, header, i);
      TerminatorMeansEmptyLine(lines, i);
    }
  }

  lemma BlockText(lines: seq<ByteString>) returns (text: ByteString)
    requires |lines| > 0
    ensures text + CRLF == JoinLines(lines)
    ensures var header := JoinLines(lines) + CRLF;
      |header| >= 4 && header[..|header| - 4] == text && OccursAt(header, TERMINATOR, |header| - 4)
  {
    var joined := JoinLines(lines);
    JoinLinesEnd(lines);
    text := joined[..|joined| - 2];
    assert joined[|joined| - 2..] == CRLF;
    assert joined == text + CRLF;
    assert (joined + CRLF)[|joined| - 2..] == TERMINATOR;
  }

  lemma TerminatorInLines(lines: seq<ByteString>, header: ByteString, i: nat)
    requires |lines| > 0
    requires header == JoinLines(lines) + CRLF
    requires OccursAt(header, TERMINATOR, i) && i < |header| - 4
    ensures OccursAt(JoinLines(lines), TERMINATOR, i)
  {
    var joined := JoinLines(lines);
    JoinLinesEnd(lines);
    assert joined[|joined| - 2..] == CRLF;
    assert header[i + 1] == header[i..i + 4][1] == LF;
    assert header[|joined| - 2] == joined[|joined| - 2..][0] == CR;
    assert header[i..i + 4] == joined[i..i + 4];
  }

  // ---------- What the rewriting keeps ----------

  lemma SameFirst(a: seq<ByteString>, b: seq<ByteString>)
    requires |a| > 0 && |b| > 0 && a[0] == b[0]
    requires multiset(a[1..]) == multiset(b[1..]) && multiset(JoinLines(a[1..])) == multiset(JoinLines(b[1..]))
    ensures multiset(a) == multiset(b) && multiset(JoinLines(a)) == multiset(JoinLines(b))
  {
    hide JoinLines;
    assert a == [a[0]] + a[1..] && b == [b[0]] + b[1..];
    JoinLinesConcat([a[0]], a[1..]);
    JoinLinesConcat([b[0]], b[1..]);
  }

  lemma RewrittenTail(rules: Rules, lines: seq<ByteString>)
    requires |lines| > 0
    ensures var tail, desired := RewrittenLines(rules, lines)[1..], Desired(rules, lines[0]);
      tail == if desired == [] then lines[1..] else OrderLines(rules, desired, lines[1..])
  {
  }

  lemma RewrittenLinesPermute(rules: Rules, lines: seq<ByteString>)
    requires |lines| > 0
    ensures var r := RewrittenLines(rules, lines);
      && multiset(r[1..]) == multiset(lines[1..])
      && multiset(r) == multiset(lines)
      && multiset(JoinLines(r)) == multiset(JoinLines(lines))
  {
    RewrittenTail(rules, lines);
    OrderPermutes(rules, Desired(rules, lines[0]), lines[1..]);
    SameFirst(RewrittenLines(rules, lines), lines);
  }

  lemma RewrittenLinesKeepNames(rules: Rules, lines: seq<ByteString>, name: Option<ByteString>)
    requires |lines| > 0
    ensures Select(Naming(rules), name, RewrittenLines(rules, lines)[1..]) == Select(Naming(rules), name, lines[1..])
  {
    RewrittenTail(rules, lines);
    SameNameKept(rules, Desired(rules, lines[0]), lines[1..], name);
  }

  lemma RewrittenLinesTwice(rules: Rules, lines: seq<ByteString>)
    requires |lines| > 0
    ensures RewrittenLines(rules, RewrittenLines(rules, lines)) == RewrittenLines(rules, lines)
  {
    var desired := Desired(rules, lines[0]);
    if desired != [] {
      var more := OrderLines(rules, desired, lines[1..]);
      assert ([lines[0]] + more)[1..] == more;
      OrderedTwice(Ranking(rules, desired), lines[1..], |desired| + 1);
    }
  }

  lemma SameMembers(a: seq<ByteString>, b: seq<ByteString>)
    requires multiset(a) == multiset(b)
    ensures forall x :: x in a ==> x in b
  {
    forall x | x in a ensures x in b {
      assert x in multiset(a);
    }
  }

  /** The rewritten block is a block of the rewritten lines. */
  lemma RewrittenIsHeader(rules: Rules, header: ByteString)
    requires IsHeader(header)
    ensures IsHeader(Rewritten(rules, header))
    ensures HeaderLines(Rewritten(rules, header)) == RewrittenLines(rules, HeaderLines(header))
  {
    var lines := HeaderLines(header);
    var r := RewrittenLines(rules, lines);
    RewrittenLinesPermute(rules, lines);
    NoEmptyLater(header);
    SameMembers(r, lines);
    SameMembers(r[1..], lines[1..]);
    LinesMakeHeader(r);
  }

  lemma RewrittenSameBytes(rules: Rules, header: ByteString)
    requires EndsWith(header, TERMINATOR)
    ensures multiset(Rewritten(rules, header)) == multiset(header)
    ensures |Rewritten(rules, header)| == |header|
  {
    HeaderIsItsLines(header);
    RewrittenLinesPermute(rules, HeaderLines(header));
    assert |multiset(Rewritten(rules, header))| == |multiset(header)|;
  }

  /**
   Rewriting keeps the message: the same bytes in another order, the terminator in the same place, the request
   line first, the other lines permuted with same-named lines in their order, the same announced body, and a
   second rewriting changes nothing.
   */
  lemma MessageKept(rules: Rules, header: ByteString)
    requires IsHeader(header)
    ensures var out := Rewritten(rules, header);
      && |out| == |header|
      && multiset(out) == multiset(header)
      && IsHeader(out)
      && HeaderLines(out)[0] == HeaderLines(header)[0]
      && multiset(HeaderLines(out)) == multiset(HeaderLines(header))
      && (forall name ::
            Select(Naming(rules), name, HeaderLines(out)[1..]) == Select(Naming(rules), name, HeaderLines(header)[1..]))
      && BodyLength(rules, out) == BodyLength(rules, header)
      && BodyChunked(rules, out) == BodyChunked(rules, header)
      && Rewritten(rules, out) == out
  {
    RewrittenSameBytes(rules, header);
    RewrittenIsHeader(rules, header);
    RewrittenLinesPermute(rules, HeaderLines(header));
    forall name {
      RewrittenLinesKeepNames(rules, HeaderLines(header), name);
    }
    RewrittenLinesTwice(rules, HeaderLines(header));
  }

  // ---------- The loops ----------

  method OrderRequestHeader(rules: Rules, header: ByteString) returns (ordered: ByteString, length: nat, chunked: bool)
    requires EndsWith(header, TERMINATOR)
    ensures ordered == Rewritten(rules, header)
    ensures length == BodyLength(rules, header)
    ensures chunked == BodyChunked(rules, header)
  {
    var lines := HeaderLines(header);
    length := RequestContentLength(rules, lines[1..]);
    chunked := RequestUsesChunkedEncoding(rules, lines[1..]);
    var desired := Desired(rules, lines[0]);
    if desired == [] {
      HeaderIsItsLines(header);
      ordered := header;
      return;
    }
    var more := PickLines(rules, desired, lines[1..]);
    var text := WriteLines([lines[0]] + more);
    ordered := text + CRLF;
  }

  method WriteLines(lines: seq<ByteString>) returns (output: ByteString)
    ensures output == JoinLines(lines)
  {
    output := [];
    for i := 0 to |lines|
      invariant output == JoinLines(lines[..i])
    {
      assert lines[..i + 1] == lines[..i] + [lines[i]];
      JoinLinesConcat(lines[..i], [lines[i]]);
      JoinLinesOne(lines[i]);
      output := output + lines[i] + CRLF;
    }
    assert lines[..|lines|] == lines;
  }

  /** The lines of rank below `d` are marked as used. */
  ghost predicate Marked(used: array<bool>, rank: ByteString -> int, lines: seq<ByteString>, d: nat)
    reads used
  {
    used.Length == |lines| && forall i :: 0 <= i < |lines| ==> (used[i] <==> rank(lines[i]) < d)
  }

  /** Appends the unused lines of one desired name. */
  method PickNamed(rules: Rules, desired: seq<ByteString>, d: nat, lines: seq<ByteString>, used: array<bool>)
    returns (picked: seq<ByteString>)
    requires d < |desired| && Marked(used, Ranking(rules, desired), lines, d)
    modifies used
    ensures Marked(used, Ranking(rules, desired), lines, d + 1)
    ensures picked == Select(Ranking(rules, desired), d, lines)
  {
    hide FieldName, NameRank;
    ghost var rank := Ranking(rules, desired);
    picked := [];
    for i := 0 to |lines|
      invariant forall j :: 0 <= j < |lines| ==> (used[j] <==> rank(lines[j]) < d || (j < i && rank(lines[j]) == d))
      invariant picked == Select(rank, d, lines[..i])
    {
      SelectSnoc(rank, d, lines, i);
      if used[i] || !LineNamed(rules, lines[i], desired[d]) {
        continue;
      }
      picked := picked + [lines[i]];
      used[i] := true;
    }
    assert lines[..|lines|] == lines;
  }

  method PickUnused(rules: Rules, desired: seq<ByteString>, lines: seq<ByteString>, used: array<bool>)
    returns (picked: seq<ByteString>)
    requires Marked(used, Ranking(rules, desired), lines, |desired|)
    ensures picked == Select(Ranking(rules, desired), |desired|, lines)
  {
    hide FieldName, NameRank;
    ghost var rank := Ranking(rules, desired);
    picked := [];
    for i := 0 to |lines|
      invariant picked == Select(rank, |desired|, lines[..i])
    {
      SelectSnoc(rank, |desired|, lines, i);
      if !used[i] {
        picked := picked + [lines[i]];
      }
    }
    assert lines[..|lines|] == lines;
  }

  /** The loops over the desired names and a table of used lines compute the reference ordering. */
  method PickLines(rules: Rules, desired: seq<ByteString>, lines: seq<ByteString>) returns (picked: seq<ByteString>)
    ensures picked == OrderLines(rules, desired, lines)
  {
    hide FieldName, Select;
    var used := new bool[|lines|](_ => false);
    picked := [];
    for d := 0 to |desired|
      invariant Marked(used, Ranking(rules, desired), lines, d)
      invariant picked == Ordered(Ranking(rules, desired), lines, d)
    {
      var more := PickNamed(rules, desired, d, lines, used);
      picked := picked + more;
    }
    var rest := PickUnused(rules, desired, lines, used);
    picked := picked + rest;
  }
}
