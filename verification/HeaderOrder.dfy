/**
 Rewriting the order of the header lines of one HTTP/1.1 request.

 Case folding, white-space trimming and the caller's choice of header order are parameters, so everything here
 holds for all of them.
 */
module HeaderOrder {
  import opened Bytes
  import opened Numbers
  import opened Options
  import opened StableOrder

  datatype Rules = Rules(
    fold: ByteString -> ByteString,
    trim: ByteString -> ByteString,
    order: (ByteString, ByteString) -> seq<ByteString>)

  const SPACE: ByteString := [32]
  const COLON: ByteString := [58]
  const COMMA: ByteString := [44]

  /** The folded name of a header line; a line with no name before its colon has none. */
  function FieldName(rules: Rules, line: ByteString): Option<ByteString> {
    var colon := Index(line, COLON);
    if colon > 0 then Some(rules.fold(line[..colon])) else None
  }

  predicate LineNamed(rules: Rules, line: ByteString, name: ByteString) {
    FieldName(rules, line) == Some(rules.fold(name))
  }

  function FieldValue(rules: Rules, line: ByteString): ByteString
    requires FieldName(rules, line).Some?
  {
    line[Index(line, COLON) + 1..]
  }

  function Naming(rules: Rules): ByteString -> Option<ByteString> {
    line => FieldName(rules, line)
  }

  /** The lines that bear a name, in their order. */
  function LinesNamed(rules: Rules, name: ByteString, lines: seq<ByteString>): (r: seq<ByteString>)
    ensures forall line :: line in r ==> LineNamed(rules, line, name)
  {
    SelectHas(Naming(rules), Some(rules.fold(name)), lines);
    Select(Naming(rules), Some(rules.fold(name)), lines)
  }

  // ---------- How much body the header announces ----------

  function LengthOf(rules: Rules, line: ByteString): (n: nat)
    requires FieldName(rules, line).Some?
    ensures n <= MAX_INT
  {
    var parsed := ParseInt64(rules.trim(FieldValue(rules, line)), 10);
    if parsed.Some? && parsed.value > 0 then parsed.value else 0
  }

  /** Only the first Content-Length line counts, and anything but a positive 64-bit number reads as zero. */
  function ContentLength(rules: Rules, lines: seq<ByteString>): (n: nat)
    ensures n <= MAX_INT
  {
    var named := LinesNamed(rules, Ascii("Content-Length"), lines);
    if named == [] then 0
    else
      assert named[0] in named;
      LengthOf(rules, named[0])
  }

  predicate IsChunked(rules: Rules, coding: ByteString) {
    rules.fold(rules.trim(coding)) == rules.fold(Ascii("chunked"))
  }

  predicate AnnouncesChunked(rules: Rules, line: ByteString)
    requires FieldName(rules, line).Some?
  {
    exists coding :: coding in Split(FieldValue(rules, line), COMMA) && IsChunked(rules, coding)
  }

  /** Any Transfer-Encoding line that lists the chunked coding makes the body chunked. */
  predicate UsesChunked(rules: Rules, lines: seq<ByteString>) {
    exists line :: line in LinesNamed(rules, Ascii("Transfer-Encoding"), lines) && AnnouncesChunked(rules, line)
  }

  method RequestContentLength(rules: Rules, lines: seq<ByteString>) returns (n: nat)
    ensures n == ContentLength(rules, lines)
  {
    ghost var name := Ascii("Content-Length");
    for i := 0 to |lines|
      invariant LinesNamed(rules, name, lines) == LinesNamed(rules, name, lines[i..])
    {
      assert lines[i..][1..] == lines[i + 1..];
      if LineNamed(rules, lines[i], Ascii("Content-Length")) {
        return LengthOf(rules, lines[i]);
      }
    }
    return 0;
  }

  method LineAnnouncesChunked(rules: Rules, line: ByteString) returns (chunked: bool)
    requires FieldName(rules, line).Some?
    ensures chunked == AnnouncesChunked(rules, line)
  {
    var codings := Split(FieldValue(rules, line), COMMA);
    for k := 0 to |codings|
      invariant forall j :: 0 <= j < k ==> !IsChunked(rules, codings[j])
    {
      if IsChunked(rules, codings[k]) {
        return true;
      }
    }
    return false;
  }

  method RequestUsesChunkedEncoding(rules: Rules, lines: seq<ByteString>) returns (chunked: bool)
    ensures chunked == UsesChunked(rules, lines)
  {
    ghost var name := Ascii("Transfer-Encoding");
    for i := 0 to |lines|
      invariant UsesChunked(rules, lines) == UsesChunked(rules, lines[i..])
    {
      assert lines[i..][1..] == lines[i + 1..];
      if LineNamed(rules, lines[i], Ascii("Transfer-Encoding")) {
        assert LinesNamed(rules, name, lines[i..]) == [lines[i]] + LinesNamed(rules, name, lines[i + 1..]);
        var found := LineAnnouncesChunked(rules, lines[i]);
        if found {
          return true;
        }
      }
    }
    return false;
  }

  // ---------- The reference ordering: stable, by the first desired name that matches ----------

  /** The position of the first desired name that folds to `name`, or the number of desired names. */
  function NameRank(rules: Rules, desired: seq<ByteString>, name: Option<ByteString>): (k: nat)
    ensures k <= |desired|
    ensures k < |desired| ==> name == Some(rules.fold(desired[k]))
    ensures forall d :: 0 <= d < k ==> name != Some(rules.fold(desired[d]))
  {
    if desired == [] || name == Some(rules.fold(desired[0])) then 0
    else 1 + NameRank(rules, desired[1..], name)
  }

  function NameRanking(rules: Rules, desired: seq<ByteString>): Option<ByteString> -> int {
    name => NameRank(rules, desired, name)
  }

  function Ranking(rules: Rules, desired: seq<ByteString>): ByteString -> int {
    line => NameRank(rules, desired, FieldName(rules, line))
  }

  function OrderLines(rules: Rules, desired: seq<ByteString>, lines: seq<ByteString>): seq<ByteString> {
    Ordered(Ranking(rules, desired), lines, |desired| + 1)
  }

  /** Lines of one name keep their relative order (section 5.3 of RFC 9110). */
  lemma SameNameKept(rules: Rules, desired: seq<ByteString>, lines: seq<ByteString>, name: Option<ByteString>)
    ensures Select(Naming(rules), name, OrderLines(rules, desired, lines)) == Select(Naming(rules), name, lines)
  {
    assert Decides(Naming(rules), Ranking(rules, desired), NameRanking(rules, desired));
    SelectOfOrdered(Naming(rules), Ranking(rules, desired), NameRanking(rules, desired), lines, |desired| + 1, name);
  }

  lemma {:induction false} JoinInsert(before: seq<ByteString>, x: ByteString, after: seq<ByteString>)
    ensures multiset(JoinLines(before + [x] + after)) == multiset(JoinLines([x])) + multiset(JoinLines(before + after))
  {
    JoinLinesConcat(before + [x], after);
    JoinLinesConcat(before, [x]);
    JoinLinesConcat(before, after);
  }

  lemma InsertPermutes(before: seq<ByteString>, x: ByteString, after: seq<ByteString>, rest: seq<ByteString>)
    requires multiset(before + after) == multiset(rest) &&
      multiset(JoinLines(before + after)) == multiset(JoinLines(rest))
    ensures multiset(before + [x] + after) == multiset([x] + rest)
    ensures multiset(JoinLines(before + [x] + after)) == multiset(JoinLines([x] + rest))
  {
    hide JoinLines;
    JoinInsert(before, x, after);
    JoinLinesConcat([x], rest);
    assert multiset(before + [x] + after) == multiset{x} + multiset(before + after);
  }

  /** Ordering is a permutation of the lines, and of their bytes. */
  lemma {:induction false} OrderPermutes(rules: Rules, desired: seq<ByteString>, lines: seq<ByteString>)
    ensures multiset(OrderLines(rules, desired, lines)) == multiset(lines)
    ensures multiset(JoinLines(OrderLines(rules, desired, lines))) == multiset(JoinLines(lines))
  {
    hide JoinLines, Ordered;
    var n, rank := |desired| + 1, Ranking(rules, desired);
    if lines == [] {
      OrderedOfNothing(rank, n);
    } else {
      var x, rest := lines[0], lines[1..];
      assert lines == [x] + rest;
      var before, after := OrderedCons(rank, x, rest, n);
      OrderPermutes(rules, desired, rest);
      InsertPermutes(before, x, after, rest);
    }
  }
}
