/**
 What header lines say, told byte by byte and without the functions that compute it: which name a line bears, how long a
 body it announces, whether it lists the chunked coding, and in which order the lines of a request go out.
 */
module HeaderMeaning {
  import opened Bytes
  import opened ChunkTracker
  import opened HeaderOrder
  import opened HeaderRewrite
  import opened Numbers
  import opened Options
  import opened StableOrder

  // ---------- Names ----------

  /** The first colon, with a name in front of it. */
  predicate ColonAt(line: ByteString, k: int) {
    0 < k < |line| && line[k] == 58 && forall i :: 0 <= i < k ==> line[i] != 58
  }

  ghost predicate Bears(rules: Rules, line: ByteString, name: ByteString) {
    exists k :: ColonAt(line, k) && rules.fold(line[..k]) == rules.fold(name)
  }

  lemma FirstAt(s: ByteString, b: byte, k: nat)
    requires k < |s| && s[k] == b && forall i :: 0 <= i < k ==> s[i] != b
    ensures Index(s, [b]) == k
  {
    hide Index;
    assert OccursAt(s, [b], k);
    forall j | 0 <= j < k ensures !OccursAt(s, [b], j) {
      assert s[j..j + 1][0] == s[j];
    }
  }

  lemma FoundFirst(s: ByteString, b: byte)
    ensures var k := Index(s, [b]); k >= 0 ==> k < |s| && s[k] == b && forall i :: 0 <= i < k ==> s[i] != b
    ensures Index(s, [b]) < 0 ==> b !in s
  {
    hide Index;
    var k := Index(s, [b]);
    if k >= 0 {
      assert s[k..k + 1][0] == s[k];
      forall i | 0 <= i < k ensures s[i] != b {
        assert s[i..i + 1] == [s[i]];
        assert !OccursAt(s, [b], i);
      }
    } else {
      forall i | 0 <= i < |s| ensures s[i] != b {
        assert s[i..i + 1] == [s[i]];
        assert !OccursAt(s, [b], i);
      }
    }
  }

  lemma ColonIff(line: ByteString, k: int)
    ensures ColonAt(line, k) <==> k > 0 && Index(line, COLON) == k
  {
    hide Index;
    FoundFirst(line, 58);
    if ColonAt(line, k) {
      FirstAt(line, 58, k);
    }
  }

  lemma BearsIff(rules: Rules, line: ByteString, name: ByteString)
    ensures Bears(rules, line, name) <==> LineNamed(rules, line, name)
  {
    hide Index, ColonAt;
    ColonIff(line, Index(line, COLON));
    forall k | ColonAt(line, k) ensures k == Index(line, COLON) {
      ColonIff(line, k);
    }
  }

  // ---------- Order ----------

  /** Some desired name up to the place `d` is the name of the line. */
  ghost predicate BearsOneOf(rules: Rules, line: ByteString, desired: seq<ByteString>, d: int) {
    exists e :: 0 <= e <= d && e < |desired| && Bears(rules, line, desired[e])
  }

  lemma RankIff(rules: Rules, line: ByteString, desired: seq<ByteString>, d: nat)
    requires d < |desired|
    ensures Ranking(rules, desired)(line) <= d <==> BearsOneOf(rules, line, desired, d)
  {
    hide Bears, FieldName;
    var k := NameRank(rules, desired, FieldName(rules, line));
    if k <= d {
      BearsIff(rules, line, desired[k]);
    }
    if BearsOneOf(rules, line, desired, d) {
      var e :| 0 <= e <= d && e < |desired| && Bears(rules, line, desired[e]);
      BearsIff(rules, line, desired[e]);
    }
  }

  /** The request line has a method, a target and more, separated by spaces. */
  predicate ThreeParts(line: ByteString, verb: ByteString, target: ByteString, rest: ByteString) {
    line == verb + SPACE + target + SPACE + rest && 32 !in verb && 32 !in target
  }

  lemma PartsOf(line: ByteString, verb: ByteString, target: ByteString, rest: ByteString)
    requires ThreeParts(line, verb, target, rest)
    ensures RequestParts(line) == Some((verb, target))
  {
    hide Index;
    var first, tail := |verb|, target + SPACE + rest;
    assert line[first] == 32 && forall i :: 0 <= i < first ==> line[i] == verb[i];
    FirstAt(line, 32, first);
    assert line[first + 1..] == tail && line[..first] == verb;
    assert tail[|target|] == 32 && forall i :: 0 <= i < |target| ==> tail[i] == target[i];
    FirstAt(tail, 32, |target|);
    assert tail[..|target|] == target;
  }

  lemma FewerParts(line: ByteString)
    requires forall i, j :: 0 <= i < j < |line| ==> line[i] != 32 || line[j] != 32
    ensures RequestParts(line) == None
  {
    hide Index;
    FoundFirst(line, 32);
    var first := Index(line, SPACE);
    if first >= 0 {
      var tail := line[first + 1..];
      FoundFirst(tail, 32);
      assert forall i :: 0 <= i < |tail| ==> tail[i] == line[first + 1 + i];
    }
  }

  /** Lines that bear no desired name. */
  ghost function Unlisted(rules: Rules, desired: seq<ByteString>): ByteString -> bool {
    line => !BearsOneOf(rules, line, desired, |desired|)
  }

  lemma {:induction false} SelectAlike<T, K, L>(key: T -> K, k: K, other: T -> L, l: L, s: seq<T>)
    requires forall x :: x in s ==> (key(x) == k <==> other(x) == l)
    ensures Select(key, k, s) == Select(other, l, s)
  {
    if s != [] {
      SelectAlike(key, k, other, l, s[1..]);
    }
  }

  lemma UnlistedRank(rules: Rules, desired: seq<ByteString>, line: ByteString)
    ensures Unlisted(rules, desired)(line) <==> Ranking(rules, desired)(line) == |desired|
  {
    hide Bears, FieldName;
    var k := NameRank(rules, desired, FieldName(rules, line));
    if |desired| > 0 {
      RankIff(rules, line, desired, |desired| - 1);
    }
  }

  lemma UnlistedKept(rules: Rules, desired: seq<ByteString>, lines: seq<ByteString>)
    ensures Select(Unlisted(rules, desired), true, OrderLines(rules, desired, lines)) ==
      Select(Unlisted(rules, desired), true, lines)
  {
    hide Ranking, Unlisted;
    var rank, n, out := Ranking(rules, desired), |desired|, OrderLines(rules, desired, lines);
    forall line {
      UnlistedRank(rules, desired, line);
    }
    SelectAlike(Unlisted(rules, desired), true, rank, n, out);
    SelectAlike(Unlisted(rules, desired), true, rank, n, lines);
    var same := (k: int) => k;
    assert Decides(rank, rank, same);
    SelectOfOrdered(rank, rank, same, lines, n + 1, n);
  }

  lemma OrderedByRank(rules: Rules, desired: seq<ByteString>, lines: seq<ByteString>, i: nat, j: nat, d: nat)
    requires i < j < |OrderLines(rules, desired, lines)| && d < |desired|
    requires Bears(rules, OrderLines(rules, desired, lines)[j], desired[d])
    ensures BearsOneOf(rules, OrderLines(rules, desired, lines)[i], desired, d)
  {
    hide Bears, Ranking;
    var out, rank := OrderLines(rules, desired, lines), Ranking(rules, desired);
    OrderedIsSorted(rank, lines, |desired| + 1);
    assert BearsOneOf(rules, out[j], desired, d);
    RankIff(rules, out[j], desired, d);
    RankIff(rules, out[i], desired, d);
  }

  /**
   The order in which a request goes out: after the request line come the lines that bear desired names, in the order
   of these names, and then the others in their own order.
   */
  lemma LinesComeInOrder(
    rules: Rules, header: ByteString, verb: ByteString, target: ByteString, rest: ByteString)
    requires IsHeader(header) && ThreeParts(HeaderLines(header)[0], verb, target, rest)
    requires rules.order(verb, target) != []
    ensures var lines, out := HeaderLines(header), HeaderLines(Rewritten(rules, header));
      var desired := rules.order(verb, target);
      && |out| == |lines| && out[0] == lines[0] && multiset(out) == multiset(lines)
      && (forall i, j, d :: 0 < i < j < |out| && 0 <= d < |desired| && Bears(rules, out[j], desired[d]) ==>
            BearsOneOf(rules, out[i], desired, d))
      && Select(Unlisted(rules, desired), true, out[1..]) == Select(Unlisted(rules, desired), true, lines[1..])
  {
    hide Index, Rewritten, HeaderLines, Unlisted, OrderLines, Bears, RequestParts, Select, BearsOneOf, ThreeParts;
    var lines, desired := HeaderLines(header), rules.order(verb, target);
    PartsOf(lines[0], verb, target, rest);
    RewrittenIsHeader(rules, header);
    RewrittenLinesPermute(rules, lines);
    var out, ordered := HeaderLines(Rewritten(rules, header)), OrderLines(rules, desired, lines[1..]);
    assert out == [lines[0]] + ordered && out[1..] == ordered;
    assert |multiset(out)| == |multiset(lines)|;
    UnlistedKept(rules, desired, lines[1..]);
    forall i, j, d | 0 < i < j < |out| && 0 <= d < |desired| && Bears(rules, out[j], desired[d])
      ensures BearsOneOf(rules, out[i], desired, d)
    {
      OrderedByRank(rules, desired, lines[1..], i - 1, j - 1, d);
    }
  }

  /** Without a third part of the request line, or without desired names, the block goes out as it came. */
  lemma LeftAlone(rules: Rules, header: ByteString)
    requires IsHeader(header)
    requires var line := HeaderLines(header)[0];
      || (forall i, j :: 0 <= i < j < |line| ==> line[i] != 32 || line[j] != 32)
      || (exists verb, target, rest :: ThreeParts(line, verb, target, rest) && rules.order(verb, target) == [])
    ensures Rewritten(rules, header) == header
  {
    hide Index, HeaderLines, RequestParts;
    var line := HeaderLines(header)[0];
    if forall i, j :: 0 <= i < j < |line| ==> line[i] != 32 || line[j] != 32 {
      FewerParts(line);
    } else {
      var verb, target, rest :| ThreeParts(line, verb, target, rest) && rules.order(verb, target) == [];
      PartsOf(line, verb, target, rest);
    }
    BlockEndsIt(header);
    HeaderIsItsLines(header);
  }

  lemma BlockEndsIt(header: ByteString)
    requires IsHeader(header)
    ensures EndsWith(header, TERMINATOR)
  {
  }

  // ---------- Body length ----------

  ghost predicate FirstBearing(rules: Rules, lines: seq<ByteString>, name: ByteString, i: int) {
    0 <= i < |lines| && Bears(rules, lines[i], name) && forall j :: 0 <= j < i ==> !Bears(rules, lines[j], name)
  }

  /** What stands after the first colon, trimmed, is the number. */
  ghost predicate HasNumber(rules: Rules, line: ByteString, n: int) {
    exists k :: ColonAt(line, k) && Denotes(rules.trim(line[k + 1..]), 10, n)
  }

  /** The first Content-Length line gives a positive number; or none does, and the length is zero. */
  ghost predicate AnnouncesLength(rules: Rules, lines: seq<ByteString>, n: nat) {
    if n > 0 then exists i :: FirstBearing(rules, lines, Ascii("Content-Length"), i) && HasNumber(rules, lines[i], n)
    else forall i, m ::
      FirstBearing(rules, lines, Ascii("Content-Length"), i) && m > 0 ==> !HasNumber(rules, lines[i], m)
  }

  lemma {:induction false} FirstNamed(rules: Rules, lines: seq<ByteString>, name: ByteString, i: nat)
    requires FirstBearing(rules, lines, name, i)
    ensures LinesNamed(rules, name, lines) != [] && LinesNamed(rules, name, lines)[0] == lines[i]
  {
    hide Bears, FieldName;
    BearsIff(rules, lines[0], name);
    if i > 0 {
      FirstNamed(rules, lines[1..], name, i - 1);
    }
  }

  lemma {:induction false} NoneNamed(rules: Rules, lines: seq<ByteString>, name: ByteString) returns (i: nat)
    ensures LinesNamed(rules, name, lines) != [] ==> FirstBearing(rules, lines, name, i)
  {
    hide Bears, FieldName;
    i := 0;
    if lines != [] {
      BearsIff(rules, lines[0], name);
      if !Bears(rules, lines[0], name) {
        var j := NoneNamed(rules, lines[1..], name);
        i := j + 1;
        if LinesNamed(rules, name, lines[1..]) != [] {
          assert forall k :: 0 < k < |lines| ==> lines[k] == lines[1..][k - 1];
        }
      }
    }
  }

  lemma NumberIff(rules: Rules, line: ByteString, n: int)
    requires FieldName(rules, line).Some? && n > 0
    ensures HasNumber(rules, line, n) <==> LengthOf(rules, line) == n
  {
    hide Index, Denotes, ParseInt64;
    var k := Index(line, COLON);
    ColonIff(line, k);
    ParsesNumber(rules.trim(line[k + 1..]), 10, n);
    forall j | ColonAt(line, j) ensures j == k {
      ColonIff(line, j);
    }
  }

  /** The length that is read is the one announced. */
  lemma LengthMeaning(rules: Rules, lines: seq<ByteString>, n: nat)
    ensures ContentLength(rules, lines) == n <==> AnnouncesLength(rules, lines, n)
  {
    hide Bears, FieldName, HasNumber, LengthOf;
    var name := Ascii("Content-Length");
    var i := NoneNamed(rules, lines, name);
    var named := LinesNamed(rules, name, lines);
    if named == [] {
      forall j | FirstBearing(rules, lines, name, j) ensures false {
        FirstNamed(rules, lines, name, j);
      }
    } else {
      assert named[0] in named;
      FirstNamed(rules, lines, name, i);
      var length := LengthOf(rules, lines[i]);
      assert ContentLength(rules, lines) == length;
      forall m: int | m > 0 ensures HasNumber(rules, lines[i], m) <==> length == m {
        NumberIff(rules, lines[i], m);
      }
      assert length > 0 ==> HasNumber(rules, lines[i], length);
      assert forall j :: FirstBearing(rules, lines, name, j) ==> j == i;
    }
  }

  // ---------- Chunked coding ----------

  /** A piece between separators. */
  predicate PieceAt(s: ByteString, b: byte, i: int, j: int) {
    && 0 <= i <= j <= |s| && (forall m :: i <= m < j ==> s[m] != b)
    && (i == 0 || s[i - 1] == b) && (j == |s| || s[j] == b)
  }

  ghost predicate IsPiece(s: ByteString, b: byte, piece: ByteString) {
    exists i, j :: PieceAt(s, b, i, j) && s[i..j] == piece
  }

  lemma {:induction false} SplitIsPieces(s: ByteString, b: byte, piece: ByteString)
    ensures piece in Split(s, [b]) <==> IsPiece(s, b, piece)
    decreases |s|
  {
    hide Index, IsPiece;
    var k := Index(s, [b]);
    FoundFirst(s, b);
    if k < 0 {
      OnePiece(s, b, piece);
    } else {
      var tail := s[k + 1..];
      SplitIsPieces(tail, b, piece);
      assert Split(s, [b]) == [s[..k]] + Split(tail, [b]);
      FirstPiece(s, b, k, tail, piece);
    }
  }

  lemma OnePiece(s: ByteString, b: byte, piece: ByteString)
    requires b !in s
    ensures IsPiece(s, b, piece) <==> piece == s
  {
    assert forall m :: 0 <= m < |s| ==> s[m] in s;
    assert s[0..|s|] == s && PieceAt(s, b, 0, |s|);
  }

  /** The first piece ends at the first separator, and the others are those of what follows it. */
  lemma FirstPiece(s: ByteString, b: byte, k: nat, tail: ByteString, piece: ByteString)
    requires k < |s| && s[k] == b && (forall i :: 0 <= i < k ==> s[i] != b) && tail == s[k + 1..]
    ensures IsPiece(s, b, piece) <==> piece == s[..k] || IsPiece(tail, b, piece)
  {
    assert PieceAt(s, b, 0, k) && s[0..k] == s[..k];
    if i, j :| PieceAt(tail, b, i, j) && tail[i..j] == piece {
      assert PieceAt(s, b, i + k + 1, j + k + 1) && s[i + k + 1..j + k + 1] == piece;
    }
    if i, j :| PieceAt(s, b, i, j) && s[i..j] == piece && i > k {
      assert PieceAt(tail, b, i - k - 1, j - k - 1) && tail[i - k - 1..j - k - 1] == piece;
    }
  }

  /** The line is a Transfer-Encoding line and one of its comma-separated codings is "chunked". */
  ghost predicate ListsChunked(rules: Rules, line: ByteString) {
    && Bears(rules, line, Ascii("Transfer-Encoding"))
    && exists k :: ColonAt(line, k) && HasChunked(rules, line[k + 1..])
  }

  ghost predicate HasChunked(rules: Rules, value: ByteString) {
    exists coding :: IsPiece(value, 44, coding) && SaysChunked(rules, coding)
  }

  predicate SaysChunked(rules: Rules, coding: ByteString) {
    rules.fold(rules.trim(coding)) == rules.fold(Ascii("chunked"))
  }

  lemma ListsIff(rules: Rules, line: ByteString)
    requires FieldName(rules, line).Some? && Bears(rules, line, Ascii("Transfer-Encoding"))
    ensures ListsChunked(rules, line) <==> AnnouncesChunked(rules, line)
  {
    hide Index, Split, HasChunked, Bears;
    var k := Index(line, COLON);
    ColonIff(line, k);
    forall j | ColonAt(line, j) ensures j == k {
      ColonIff(line, j);
    }
    HasIff(rules, line[k + 1..]);
  }

  lemma HasIff(rules: Rules, value: ByteString)
    ensures HasChunked(rules, value) <==> exists coding :: coding in Split(value, COMMA) && IsChunked(rules, coding)
  {
    hide Split, IsPiece;
    forall coding: ByteString ensures coding in Split(value, COMMA) <==> IsPiece(value, 44, coding) {
      SplitIsPieces(value, 44, coding);
    }
  }

  lemma {:induction false} NamedAre(rules: Rules, lines: seq<ByteString>, name: ByteString, line: ByteString)
    ensures line in LinesNamed(rules, name, lines) <==> line in lines && Bears(rules, line, name)
  {
    hide Bears, FieldName;
    if lines != [] {
      BearsIff(rules, lines[0], name);
      NamedAre(rules, lines[1..], name, line);
      assert lines == [lines[0]] + lines[1..];
    }
  }

  /** The body is taken as chunked exactly if some line says so. */
  lemma ChunkedMeaning(rules: Rules, lines: seq<ByteString>)
    ensures UsesChunked(rules, lines) <==> exists line :: line in lines && ListsChunked(rules, line)
  {
    hide Bears, FieldName, LinesNamed, AnnouncesChunked;
    var name := Ascii("Transfer-Encoding");
    forall line ensures line in LinesNamed(rules, name, lines) <==> line in lines && Bears(rules, line, name) {
      NamedAre(rules, lines, name, line);
    }
    forall line | line in LinesNamed(rules, name, lines)
      ensures FieldName(rules, line).Some? && (ListsChunked(rules, line) <==> AnnouncesChunked(rules, line))
    {
      NamedHasName(rules, line, name);
      ListsIff(rules, line);
    }
  }

  lemma NamedHasName(rules: Rules, line: ByteString, name: ByteString)
    requires Bears(rules, line, name)
    ensures FieldName(rules, line).Some?
  {
    hide Bears;
    BearsIff(rules, line, name);
  }

  // ---------- Chunk sizes ----------

  /** The trimmed line, up to the first semicolon if there is one, is the number in base 16. */
  ghost predicate AnnouncesSize(rules: Rules, line: ByteString, n: nat) {
    var text := rules.trim(line);
    || (59 !in text && Denotes(text, 16, n))
    || exists e :: ExtensionAt(text, e) && Denotes(rules.trim(text[..e]), 16, n)
  }

  predicate ExtensionAt(text: ByteString, e: int) {
    0 <= e < |text| && text[e] == 59 && forall i :: 0 <= i < e ==> text[i] != 59
  }

  /** The chunk size that is read is the one announced. */
  lemma SizeMeaning(rules: Rules, line: ByteString, n: nat)
    ensures ChunkSize(rules, line) == Some(n) <==> AnnouncesSize(rules, line, n)
  {
    hide Index, Denotes, ParseInt64;
    var text := rules.trim(line);
    FoundFirst(text, 59);
    var e := Index(text, SEMICOLON);
    ParsesNumber(if e >= 0 then rules.trim(text[..e]) else text, 16, n);
    forall j | ExtensionAt(text, j) ensures j == e {
      FirstAt(text, 59, j);
    }
  }
}
