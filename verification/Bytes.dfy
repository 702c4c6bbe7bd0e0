/**
 Byte strings, with the searching, splitting and joining operations that the HTTP wire code uses.
 */
module Bytes {

  type byte = b: int | 0 <= b < 256

  type ByteString = seq<byte>

  const CR: byte := 13
  const LF: byte := 10
  const CRLF: ByteString := [CR, LF]
  const TERMINATOR: ByteString := [CR, LF, CR, LF]

  predicate OccursAt(s: ByteString, sep: ByteString, i: int) {
    0 <= i && i + |sep| <= |s| && s[i..i + |sep|] == sep
  }

  predicate Contains(s: ByteString, sep: ByteString) {
    exists i :: 0 <= i <= |s| && OccursAt(s, sep, i)
  }

  predicate EndsWith(s: ByteString, sep: ByteString) {
    OccursAt(s, sep, |s| - |sep|)
  }

  /** The first position at or after `from` where `sep` occurs in `s`, or -1. */
  function IndexFrom(s: ByteString, sep: ByteString, from: nat): (r: int)
    ensures r == -1 || (from <= r && OccursAt(s, sep, r))
    ensures forall j :: from <= j && (r == -1 || j < r) ==> !OccursAt(s, sep, j)
    decreases |s| - from
  {
    if from + |sep| > |s| then -1
    else if s[from..from + |sep|] == sep then from
    else IndexFrom(s, sep, from + 1)
  }

  function Index(s: ByteString, sep: ByteString): (r: int)
    ensures r == -1 || OccursAt(s, sep, r)
    ensures r == -1 <==> !Contains(s, sep)
    ensures forall j :: 0 <= j && (r == -1 || j < r) ==> !OccursAt(s, sep, j)
  {
    var r := IndexFrom(s, sep, 0);
    assert r != -1 ==> OccursAt(s, sep, r) && 0 <= r <= |s|;
    r
  }

  lemma NoneEarlier(s: ByteString, sep: ByteString, i: nat)
    requires i <= |s| && forall j :: 0 <= j < i ==> !OccursAt(s, sep, j)
    requires |sep| > 0
    ensures !Contains(s[..i], sep)
  {
    forall j | 0 <= j <= i ensures !OccursAt(s[..i], sep, j) {
      if j + |sep| <= i {
        assert s[..i][j..j + |sep|] == s[j..j + |sep|];
        assert !OccursAt(s, sep, j);
      }
    }
  }

  /** The pieces of `s` between the occurrences of `sep`, scanning from the left. */
  function Split(s: ByteString, sep: ByteString): (pieces: seq<ByteString>)
    requires |sep| > 0
    ensures |pieces| > 0
    ensures forall piece :: piece in pieces ==> !Contains(piece, sep)
    decreases |s|
  {
    var i := Index(s, sep);
    if i == -1 then [s]
    else
      NoneEarlier(s, sep, i);
      [s[..i]] + Split(s[i + |sep|..], sep)
  }

  /** Every line followed by a line end, which is how header lines are written out. */
  function JoinLines(lines: seq<ByteString>): (s: ByteString) {
    if lines == [] then [] else lines[0] + CRLF + JoinLines(lines[1..])
  }

  lemma {:induction false} JoinLinesConcat(a: seq<ByteString>, b: seq<ByteString>)
    ensures JoinLines(a + b) == JoinLines(a) + JoinLines(b)
  {
    if a == [] {
      assert a + b == b;
    } else {
      assert (a + b)[1..] == a[1..] + b;
      JoinLinesConcat(a[1..], b);
    }
  }

  lemma JoinLinesOne(line: ByteString)
    ensures JoinLines([line]) == line + CRLF
  {
    assert [line][1..] == [];
  }

  lemma CutAt(s: ByteString, i: nat)
    requires OccursAt(s, CRLF, i)
    ensures s == s[..i] + CRLF + s[i + 2..]
  {
    assert s[i..i + 2] == CRLF;
  }

  /** Splitting at line ends loses nothing. */
  lemma {:induction false} JoinOfSplit(s: ByteString)
    ensures JoinLines(Split(s, CRLF)) == s + CRLF
    decreases |s|
  {
    var i := Index(s, CRLF);
    if i == -1 {
      JoinLinesOne(s);
    } else {
      CutAt(s, i);
      var first, rest := s[..i], s[i + 2..];
      JoinOfSplit(rest);
      var pieces := Split(rest, CRLF);
      assert ([first] + pieces)[1..] == pieces;
      assert s + CRLF == first + CRLF + (rest + CRLF);
    }
  }

  /** A line end found inside a line that a line end follows lies wholly in the line. */
  lemma EarlierLineEnd(line: ByteString, rest: ByteString, j: nat)
    requires j < |line| && OccursAt(line + CRLF + rest, CRLF, j)
    ensures Contains(line, CRLF)
  {
    var s := line + CRLF + rest;
    assert s[j + 1] == s[j..j + 2][1] == LF;
    assert s[|line|] == CR;
    assert line[j..j + 2] == s[j..j + 2];
    assert OccursAt(line, CRLF, j);
  }

  lemma FirstLineEnd(line: ByteString, rest: ByteString)
    requires !Contains(line, CRLF)
    ensures Index(line + CRLF + rest, CRLF) == |line|
  {
    var s := line + CRLF + rest;
    assert s[|line|..|line| + 2] == CRLF;
    assert OccursAt(s, CRLF, |line|);
    var i := Index(s, CRLF);
    if i < |line| {
      EarlierLineEnd(line, rest, i);
    }
  }

  lemma {:induction false} JoinLinesEnd(lines: seq<ByteString>)
    requires lines != []
    ensures EndsWith(JoinLines(lines), CRLF)
    decreases |lines|
  {
    var j := JoinLines(lines);
    if |lines| == 1 {
      assert lines == [lines[0]];
      JoinLinesOne(lines[0]);
    } else {
      JoinLinesEnd(lines[1..]);
      var rest := JoinLines(lines[1..]);
      assert j[|j| - 2..] == rest[|rest| - 2..];
    }
  }

  lemma SplitFirst(line: ByteString, tail: ByteString)
    requires !Contains(line, CRLF)
    ensures Split(line + CRLF + tail, CRLF) == [line] + Split(tail, CRLF)
  {
    FirstLineEnd(line, tail);
    var s := line + CRLF + tail;
    assert s[..|line|] == line && s[|line| + 2..] == tail;
  }

  /** Splitting what was joined gives the lines back, provided that no line holds a line end. */
  lemma {:induction false} SplitOfJoin(lines: seq<ByteString>, s: ByteString)
    requires |lines| > 0
    requires forall line :: line in lines ==> !Contains(line, CRLF)
    requires s + CRLF == JoinLines(lines)
    ensures Split(s, CRLF) == lines
    decreases |lines|
  {
    var line, more := lines[0], lines[1..];
    assert lines == [line] + more;
    if more == [] {
      JoinLinesOne(line);
      assert s == (line + CRLF)[..|line|] == line;
    } else {
      var rest := JoinLines(more);
      JoinLinesEnd(more);
      var tail := rest[..|rest| - 2];
      assert rest == tail + CRLF;
      SplitOfJoin(more, tail);
      assert s == line + CRLF + tail by {
        var t := line + CRLF + tail;
        assert t + CRLF == line + CRLF + rest == s + CRLF;
        assert s == (s + CRLF)[..|s|] == (t + CRLF)[..|t|] == t;
      }
      SplitFirst(line, tail);
    }
  }

  /**
   An empty line other than the first is what makes a header block end early: a block of lines holds the
   blank-line terminator at position `i` only if some later line is empty.
   */
  lemma {:induction false} TerminatorMeansEmptyLine(lines: seq<ByteString>, i: nat)
    requires lines != []
    requires forall line :: line in lines ==> !Contains(line, CRLF)
    requires OccursAt(JoinLines(lines), TERMINATOR, i)
    ensures [] in lines[1..]
    decreases |lines|
  {
    var j := JoinLines(lines);
    var line, more := lines[0], lines[1..];
    var rest := JoinLines(more);
    assert j == line + CRLF + rest;
    assert j[i..i + 4][..2] == j[i..i + 2];
    assert OccursAt(j, CRLF, i);
    FirstLineEnd(line, rest);
    assert i >= |line|;
    assert j[i] == j[i..i + 4][0] == CR;
    if i >= |line| + 2 {
      assert j[i..i + 4] == rest[i - |line| - 2..i - |line| + 2];
      assert OccursAt(rest, TERMINATOR, i - |line| - 2);
      assert more != [];
      TerminatorMeansEmptyLine(more, i - |line| - 2);
      assert more[1..] == lines[2..];
      assert [] in lines[2..];
    } else if i == |line| + 1 {
      assert false;
    } else {
      assert i == |line|;
      assert rest == j[|line| + 2..];
      assert rest[0] == j[i..i + 4][2] && rest[1] == j[i..i + 4][3];
      assert rest[0..2] == CRLF;
      assert more != [];
      assert rest == more[0] + CRLF + JoinLines(more[1..]);
      FirstLineEnd(more[0], JoinLines(more[1..]));
      assert OccursAt(rest, CRLF, 0);
      assert |more[0]| == 0;
      assert more[0] == [];
    }
  }

  lemma TwoLineEnds(b: ByteString, a: ByteString)
    requires |b| >= 2 && b[|b| - 2..] == CRLF && |a| >= 2 && a[..2] == CRLF
    ensures OccursAt(b + a, TERMINATOR, |b| - 2)
  {
    assert (b + a)[|b| - 2..|b| + 2] == b[|b| - 2..] + a[..2];
  }

  /** And an empty later line does make the block end there. */
  lemma {:induction false} EmptyLineMeansTerminator(lines: seq<ByteString>, k: nat)
    requires 1 <= k < |lines| && lines[k] == []
    ensures OccursAt(JoinLines(lines), TERMINATOR, |JoinLines(lines[..k])| - 2)
  {
    var before, after := lines[..k], lines[k..];
    assert lines == before + after;
    JoinLinesConcat(before, after);
    JoinLinesEnd(before);
    var b, a := JoinLines(before), JoinLines(after);
    assert a == [] + CRLF + JoinLines(after[1..]);
    hide JoinLines;
    assert b[|b| - 2..] == CRLF;
    TwoLineEnds(b, a);
  }
}
