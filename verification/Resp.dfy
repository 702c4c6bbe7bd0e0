/**
 Commands and replies in the array and bulk-string format of the Redis serialization protocol, version 2: the
 encoder of the certificate client, the reply writer and the command reader of the queue server.
 */
module Resp {
  import opened Bytes
  import opened Numbers
  import opened Options

  const STAR: byte := 42
  const DOLLAR: byte := 36
  const COLON: byte := 58

  /** A value and the bytes after it; or input that ends too early; or input that is not in the format. */
  datatype Parse<T> = Got(value: T, rest: ByteString) | EndOfInput | ProtocolError

  // ---------- Reading ----------

  function LineAt(s: ByteString): Parse<ByteString> {
    var i := Index(s, [LF]);
    if i < 0 then EndOfInput
    else
      var line := s[..i];
      Got(if line != [] && line[|line| - 1] == CR then line[..|line| - 1] else line, s[i + 1..])
  }

  function BulkAt(s: ByteString): Parse<ByteString> {
    match LineAt(s)
    case EndOfInput => EndOfInput
    case ProtocolError => ProtocolError
    case Got(line, rest) =>
      match ParseInt64(line, 10)
      case None => ProtocolError
      case Some(n) =>
        if n < 0 then Got([], rest)
        else if |rest| < n + 2 then EndOfInput
        else if rest[n] != CR || rest[n + 1] != LF then ProtocolError
        else Got(rest[..n], rest[n + 2..])
  }

  function StringAt(s: ByteString): Parse<ByteString> {
    if s == [] then EndOfInput
    else if s[0] == DOLLAR then BulkAt(s[1..])
    else if s[0] == PLUS || s[0] == COLON then LineAt(s[1..])
    else ProtocolError
  }

  function StringsAt(s: ByteString, count: nat): Parse<seq<ByteString>>
    decreases count
  {
    if count == 0 then Got([], s)
    else
      match StringAt(s)
      case EndOfInput => EndOfInput
      case ProtocolError => ProtocolError
      case Got(first, rest) =>
        match StringsAt(rest, count - 1)
        case EndOfInput => EndOfInput
        case ProtocolError => ProtocolError
        case Got(more, rest') => Got([first] + more, rest')
  }

  function ArrayAt(s: ByteString): Parse<seq<ByteString>> {
    if s == [] then EndOfInput
    else if s[0] != STAR then ProtocolError
    else
      match LineAt(s[1..])
      case EndOfInput => EndOfInput
      case ProtocolError => ProtocolError
      case Got(line, rest) =>
        match ParseInt64(line, 10)
        case None => ProtocolError
        case Some(n) => if n < 0 then ProtocolError else StringsAt(rest, n)
  }

  function TrimSuffix(s: ByteString, b: byte): ByteString {
    if s != [] && s[|s| - 1] == b then s[..|s| - 1] else s
  }

  /** The bytes up to the first line feed are where the reference looks for the end of the line. */
  lemma FirstLineFeed(input: ByteString, line: Option<ByteString>, rest: ByteString)
    requires line.Some? ==> input == line.value + rest && line.value != [] && line.value[|line.value| - 1] == LF
    requires line.Some? ==> LF !in line.value[..|line.value| - 1]
    requires line.None? ==> LF !in input
    ensures Index(input, [LF]) == if line.Some? then |line.value| - 1 else -1
    ensures line.Some? ==>
      var i := |line.value| - 1; input[..i] == line.value[..i] == TrimSuffix(line.value, LF) && input[i + 1..] == rest
  {
    hide Index;
    var n := if line.Some? then |line.value| - 1 else |input|;
    forall j | 0 <= j < n ensures !OccursAt(input, [LF], j) {
      assert input[j] in input[..n] && input[..n] == if line.Some? then line.value[..n] else input;
      assert input[j..j + 1][0] == input[j];
    }
    if line.Some? {
      assert input[n] == LF && input[n..n + 1] == [LF];
      assert OccursAt(input, [LF], n);
    } else {
      assert !OccursAt(input, [LF], |input|);
    }
  }

  /** The buffered reader: what it has not handed out yet. */
  class Reader {
    var pending: ByteString

    constructor (input: ByteString)
      ensures pending == input
    {
      pending := input;
    }

    method ReadByte() returns (b: Option<byte>)
      modifies this
      ensures if old(pending) == [] then b == None && pending == []
        else b == Some(old(pending)[0]) && pending == old(pending)[1..]
    {
      if pending == [] {
        return None;
      }
      b := Some(pending[0]);
      pending := pending[1..];
    }

    /** Takes bytes up to and including the next line feed; without one, takes everything and finds the end. */
    method ReadDelimited() returns (line: Option<ByteString>)
      modifies this
      ensures old(pending) == (if line.Some? then line.value else old(pending)) + pending
      ensures line.Some? ==>
        line.value != [] && line.value[|line.value| - 1] == LF && LF !in line.value[..|line.value| - 1]
      ensures line.None? ==> pending == [] && LF !in old(pending)
    {
      ghost var input := pending;
      var taken: ByteString := [];
      while pending != []
        invariant input == taken + pending && LF !in taken
        decreases |pending|
      {
        var b := pending[0];
        taken, pending := taken + [b], pending[1..];
        if b == LF {
          return Some(taken);
        }
      }
      return None;
    }

    /** One line without its line end: a line feed, with or without a carriage return before it. */
    method ReadLine() returns (p: Parse<ByteString>)
      modifies this
      ensures p == LineAt(old(pending)) && (p.Got? ==> pending == p.rest)
      ensures p.Got? ==>
        LF !in p.value && (old(pending) == p.value + CRLF + pending || old(pending) == p.value + [LF] + pending)
      ensures p.EndOfInput? <==> LF !in old(pending)
    {
      hide OccursAt, Contains, Index;
      ghost var input := pending;
      var read := ReadDelimited();
      FirstLineFeed(input, read, pending);
      if read == None {
        return EndOfInput;
      }
      var line := TrimSuffix(read.value, LF);
      line := TrimSuffix(line, CR);
      return Got(line, pending);
    }

    method ReadBulkString() returns (p: Parse<ByteString>)
      modifies this
      ensures p == BulkAt(old(pending)) && (p.Got? ==> pending == p.rest)
    {
      var header := ReadLine();
      if !header.Got? {
        return header;
      }
      var length := ParseInt64(header.value, 10);
      if length == None {
        return ProtocolError;
      }
      var n := length.value;
      if n < 0 {
        return Got([], pending);
      }
      if |pending| < n + 2 {
        pending := [];
        return EndOfInput;
      }
      var payload := pending[..n + 2];
      pending := pending[n + 2..];
      if payload[n] != CR || payload[n + 1] != LF {
        return ProtocolError;
      }
      assert payload[..n] == header.rest[..n];
      return Got(payload[..n], pending);
    }

    method ReadString() returns (p: Parse<ByteString>)
      modifies this
      ensures p == StringAt(old(pending)) && (p.Got? ==> pending == p.rest)
    {
      var prefix := ReadByte();
      if prefix == None {
        return EndOfInput;
      }
      if prefix.value == DOLLAR {
        p := ReadBulkString();
      } else if prefix.value == PLUS || prefix.value == COLON {
        p := ReadLine();
      } else {
        p := ProtocolError;
      }
    }

    method ReadArray() returns (p: Parse<seq<ByteString>>)
      modifies this
      ensures p == ArrayAt(old(pending)) && (p.Got? ==> pending == p.rest)
    {
      hide LineAt, ParseInt64, StringsAt;
      var prefix := ReadByte();
      if prefix == None {
        return EndOfInput;
      }
      if prefix.value != STAR {
        return ProtocolError;
      }
      var header := ReadLine();
      if header.EndOfInput? {
        return EndOfInput;
      }
      if header.ProtocolError? {
        return ProtocolError;
      }
      var count := ParseInt64(header.value, 10);
      if count == None || count.value < 0 {
        return ProtocolError;
      }
      p := ReadStrings(count.value);
    }

    method ReadStrings(count: nat) returns (p: Parse<seq<ByteString>>)
      modifies this
      ensures p == StringsAt(old(pending), count) && (p.Got? ==> pending == p.rest)
    {
      hide StringAt;
      ghost var start := pending;
      var args: seq<ByteString> := [];
      OntoNothing(StringsAt(start, count));
      for i := 0 to count
        invariant StringsAt(start, count) == Onto(args, StringsAt(pending, count - i))
      {
        var item := ReadString();
        if item.EndOfInput? {
          return EndOfInput;
        }
        if item.ProtocolError? {
          return ProtocolError;
        }
        OntoTwice(args, item.value, StringsAt(pending, count - i - 1));
        args := args + [item.value];
      }
      assert args + [] == args;
      return Got(args, pending);
    }
  }

  function Onto(args: seq<ByteString>, p: Parse<seq<ByteString>>): Parse<seq<ByteString>> {
    if p.Got? then Got(args + p.value, p.rest) else p
  }

  lemma OntoNothing(p: Parse<seq<ByteString>>)
    ensures Onto([], p) == p
  {
    if p.Got? {
      assert [] + p.value == p.value;
    }
  }

  lemma OntoTwice(args: seq<ByteString>, arg: ByteString, p: Parse<seq<ByteString>>)
    ensures Onto(args + [arg], p) == Onto(args, Onto([arg], p))
  {
    if p.Got? {
      assert args + [arg] + p.value == args + ([arg] + p.value);
    }
  }

  // ---------- Writing ----------

  function BulkWire(arg: ByteString): ByteString {
    [DOLLAR] + Decimal(|arg|) + CRLF + arg + CRLF
  }

  function BulksWire(args: seq<ByteString>): ByteString {
    if args == [] then [] else BulkWire(args[0]) + BulksWire(args[1..])
  }

  function ArrayWire(args: seq<ByteString>): ByteString {
    [STAR] + Decimal(|args|) + CRLF + BulksWire(args)
  }

  lemma {:induction false} BulksWireSnoc(args: seq<ByteString>, arg: ByteString)
    ensures BulksWire(args + [arg]) == BulksWire(args) + BulkWire(arg)
  {
    if args == [] {
      assert [arg][1..] == [];
      assert [] + [arg] == [arg];
    } else {
      assert (args + [arg])[1..] == args[1..] + [arg];
      BulksWireSnoc(args[1..], arg);
    }
  }

  method EncodeArray(args: seq<ByteString>) returns (wire: ByteString)
    ensures wire == ArrayWire(args)
  {
    var buffer: ByteString := [STAR] + Decimal(|args|) + CRLF;
    ghost var head := buffer;
    for i := 0 to |args|
      invariant buffer == head + BulksWire(args[..i])
    {
      assert args[..i + 1] == args[..i] + [args[i]];
      BulksWireSnoc(args[..i], args[i]);
      buffer := buffer + [DOLLAR];
      buffer := buffer + Decimal(|args[i]|) + CRLF;
      buffer := buffer + args[i] + CRLF;
    }
    assert args[..|args|] == args;
    return buffer;
  }

  /** A reply item; the absent one is written as a bulk string of length -1. */
  function ItemWire(item: Option<ByteString>): ByteString {
    match item
    case None => [DOLLAR, MINUS, 49] + CRLF
    case Some(payload) => BulkWire(payload)
  }

  function ItemsWire(items: seq<Option<ByteString>>): ByteString {
    if items == [] then [] else ItemWire(items[0]) + ItemsWire(items[1..])
  }

  function ReplyWire(items: seq<Option<ByteString>>): ByteString {
    [STAR] + Decimal(|items|) + CRLF + ItemsWire(items)
  }

  lemma {:induction false} ItemsWireSnoc(items: seq<Option<ByteString>>, item: Option<ByteString>)
    ensures ItemsWire(items + [item]) == ItemsWire(items) + ItemWire(item)
  {
    if items == [] {
      assert [item][1..] == [];
      assert [] + [item] == [item];
    } else {
      assert (items + [item])[1..] == items[1..] + [item];
      ItemsWireSnoc(items[1..], item);
    }
  }

  method WriteArrayOfBulkStrings(items: seq<Option<ByteString>>) returns (wire: ByteString)
    ensures wire == ReplyWire(items)
  {
    hide Decimal, ItemWire;
    wire := [STAR] + Decimal(|items|) + CRLF;
    ghost var head := wire;
    for i := 0 to |items|
      invariant wire == head + ItemsWire(items[..i])
    {
      assert items[..i + 1] == items[..i] + [items[i]];
      ItemsWireSnoc(items[..i], items[i]);
      wire := wire + ItemWire(items[i]);
    }
    assert items[..|items|] == items;
  }

  // ---------- Round trips ----------

  /** Lengths that a Go program can have. */
  predicate Fits(arg: ByteString) {
    |arg| <= MAX_INT
  }

  predicate SendableCommand(args: seq<ByteString>) {
    |args| <= MAX_INT && forall arg :: arg in args ==> Fits(arg)
  }

  lemma LineRoundTrip(line: ByteString, rest: ByteString)
    requires LF !in line
    ensures LineAt(line + CRLF + rest) == Got(line, rest)
  {
    var s := line + CRLF + rest;
    var i := Index(s, [LF]);
    assert s[|line| + 1..|line| + 2] == [LF];
    assert OccursAt(s, [LF], |line| + 1);
    assert s[i..i + 1][0] == LF;
    assert s[i] == LF;
    forall j | 0 <= j <= |line| ensures s[j] != LF {
      if j < |line| {
        assert s[j] == line[j];
        assert line[j] in line;
      }
    }
    assert i == |line| + 1;
    assert s[..i] == line + [CR];
    assert (line + [CR])[..|line|] == line;
    assert s[i + 1..] == rest;
  }

  lemma NumberLine(n: nat, rest: ByteString)
    requires n <= MAX_INT
    ensures LineAt(Decimal(n) + CRLF + rest) == Got(Decimal(n), rest)
    ensures ParseInt64(Decimal(n), 10) == Some(n)
  {
    LineRoundTrip(Decimal(n), rest);
    AtoiOfItoa(n);
  }

  lemma BulkRoundTrip(arg: ByteString, tail: ByteString)
    requires Fits(arg)
    ensures StringAt(BulkWire(arg) + tail) == Got(arg, tail)
  {
    hide Index, ParseInt64, Decimal, LineAt;
    var n := |arg|;
    var s, rest := BulkWire(arg) + tail, arg + CRLF + tail;
    assert s[1..] == Decimal(n) + CRLF + rest;
    NumberLine(n, rest);
    assert rest[..n] == arg && rest[n] == CR && rest[n + 1] == LF && rest[n + 2..] == tail;
  }

  lemma NilRoundTrip(tail: ByteString)
    ensures StringAt(ItemWire(None) + tail) == Got([], tail)
  {
    hide Index, LineAt;
    var line: ByteString := [MINUS, 49];
    LineRoundTrip(line, tail);
    assert (ItemWire(None) + tail)[1..] == line + CRLF + tail;
    assert line[1..] == [49];
    assert ParseDigits([49], 10) == Some(1);
  }

  function Payload(item: Option<ByteString>): ByteString {
    if item.Some? then item.value else []
  }

  function Payloads(items: seq<Option<ByteString>>): (r: seq<ByteString>)
    ensures |r| == |items|
  {
    if items == [] then [] else [Payload(items[0])] + Payloads(items[1..])
  }

  lemma {:induction false} ItemsRoundTrip(items: seq<Option<ByteString>>, tail: ByteString)
    requires forall item :: item in items ==> Fits(Payload(item))
    ensures StringsAt(ItemsWire(items) + tail, |items|) == Got(Payloads(items), tail)
  {
    hide StringAt, ItemWire, BulkWire;
    if items == [] {
      assert ItemsWire(items) + tail == tail;
    } else {
      var first, more := items[0], ItemsWire(items[1..]) + tail;
      assert ItemsWire(items) + tail == ItemWire(first) + more;
      ItemRoundTrip(first, more);
      ItemsRoundTrip(items[1..], tail);
    }
  }

  lemma ItemRoundTrip(item: Option<ByteString>, tail: ByteString)
    requires Fits(Payload(item))
    ensures StringAt(ItemWire(item) + tail) == Got(Payload(item), tail)
  {
    hide StringAt, BulkWire;
    if item.Some? {
      BulkRoundTrip(item.value, tail);
    } else {
      NilRoundTrip(tail);
    }
  }

  /** A reply decodes to its items, an absent one as an empty string, and leaves exactly what follows it. */
  lemma ReplyRoundTrip(items: seq<Option<ByteString>>, tail: ByteString)
    requires |items| <= MAX_INT && forall item :: item in items ==> Fits(Payload(item))
    ensures ArrayAt(ReplyWire(items) + tail) == Got(Payloads(items), tail)
  {
    hide LineAt, StringsAt, ItemsWire, ParseInt64, Decimal;
    var s, rest := ReplyWire(items) + tail, ItemsWire(items) + tail;
    assert s[1..] == Decimal(|items|) + CRLF + rest;
    NumberLine(|items|, rest);
    ItemsRoundTrip(items, tail);
  }

  function Present(args: seq<ByteString>): (items: seq<Option<ByteString>>)
    ensures |items| == |args|
    ensures forall i :: 0 <= i < |args| ==> items[i] == Some(args[i])
  {
    seq(|args|, i requires 0 <= i < |args| => Some(args[i]))
  }

  lemma {:induction false} PresentWire(args: seq<ByteString>)
    ensures ItemsWire(Present(args)) == BulksWire(args)
    ensures Payloads(Present(args)) == args
  {
    if args != [] {
      assert Present(args)[1..] == Present(args[1..]);
      PresentWire(args[1..]);
    }
  }

  /**
   A command decodes to its arguments, whatever bytes they hold, and leaves exactly what follows it; the server's
   reply of the same strings is the same bytes.
   */
  lemma CommandRoundTrip(args: seq<ByteString>, tail: ByteString)
    requires SendableCommand(args)
    ensures ArrayAt(ArrayWire(args) + tail) == Got(args, tail)
    ensures ReplyWire(Present(args)) == ArrayWire(args)
  {
    hide ArrayAt, ItemsWire, BulksWire, Decimal;
    PresentWire(args);
    forall item | item in Present(args) ensures Fits(Payload(item)) {
      var i :| 0 <= i < |args| && Present(args)[i] == item;
      assert args[i] in args;
    }
    ReplyRoundTrip(Present(args), tail);
  }

  function PipelineWire(commands: seq<seq<ByteString>>): ByteString {
    if commands == [] then [] else ArrayWire(commands[0]) + PipelineWire(commands[1..])
  }

  /** Reading command after command. */
  function CommandsAt(s: ByteString, count: nat): Parse<seq<seq<ByteString>>>
    decreases count
  {
    if count == 0 then Got([], s)
    else
      match ArrayAt(s)
      case EndOfInput => EndOfInput
      case ProtocolError => ProtocolError
      case Got(first, rest) =>
        match CommandsAt(rest, count - 1)
        case EndOfInput => EndOfInput
        case ProtocolError => ProtocolError
        case Got(more, rest') => Got([first] + more, rest')
  }

  lemma PipelineFirst(commands: seq<seq<ByteString>>, tail: ByteString)
    requires commands != []
    ensures PipelineWire(commands) + tail == ArrayWire(commands[0]) + (PipelineWire(commands[1..]) + tail)
  {
    hide ArrayWire;
  }

  /** Pipelined commands decode to the same series of commands. */
  lemma {:induction false} PipelineRoundTrip(commands: seq<seq<ByteString>>, tail: ByteString)
    requires forall i :: 0 <= i < |commands| ==> SendableCommand(commands[i])
    ensures CommandsAt(PipelineWire(commands) + tail, |commands|) == Got(commands, tail)
    decreases |commands|
  {
    hide ArrayAt, ArrayWire;
    if commands == [] {
      assert PipelineWire(commands) + tail == tail;
    } else {
      var first, more, s := commands[0], commands[1..], PipelineWire(commands[1..]) + tail;
      PipelineFirst(commands, tail);
      hide PipelineWire, SendableCommand;
      assert commands == [first] + more;
      PipelineRoundTrip(more, tail);
      CommandRoundTrip(first, s);
    }
  }

  // ---------- The format ----------

  lemma BulkLooks()
    ensures BulkWire(Ascii("GET")) == Ascii("$3\r\nGET\r\n")
  {
  }

  lemma TwoLook(a: ByteString, b: ByteString)
    ensures ArrayWire([a, b]) == Ascii("*2\r\n") + (BulkWire(a) + BulkWire(b))
  {
    hide BulkWire;
    var none: seq<ByteString> := [];
    assert [a, b][1..] == [b] && [b][1..] == none;
    assert BulksWire([b]) == BulkWire(b) + BulksWire(none);
    assert BulksWire([a, b]) == BulkWire(a) + BulksWire([b]);
    assert [STAR] + Decimal(2) + CRLF == Ascii("*2\r\n");
  }

  /** A command as it looks on the wire. */
  lemma WireLooks()
    ensures ArrayWire([Ascii("GET"), Ascii("GET")]) ==
      Ascii("*2\r\n") + (Ascii("$3\r\nGET\r\n") + Ascii("$3\r\nGET\r\n"))
  {
    hide BulkWire, ArrayWire;
    BulkLooks();
    TwoLook(Ascii("GET"), Ascii("GET"));
  }

  lemma EmptyWireLooks()
    ensures ItemWire(None) == Ascii("$-1\r\n") && ArrayWire([]) == Ascii("*0\r\n")
  {
  }

  lemma LineUnfinished(s: ByteString)
    requires LF !in s
    ensures LineAt(s) == EndOfInput
  {
    FirstLineFeed(s, None, []);
  }

  /** A command cut off anywhere is not misread: the reader waits for more. */
  lemma BulkCutOff(arg: ByteString, k: nat)
    requires Fits(arg) && k < |BulkWire(arg)|
    ensures StringAt(BulkWire(arg)[..k]) == EndOfInput
  {
    hide Decimal, ParseInt64, LineAt;
    if k > 0 {
      var digits := Decimal(|arg|);
      var body := digits + CRLF + (arg + CRLF);
      assert BulkWire(arg) == [DOLLAR] + body;
      var cut := body[..k - 1];
      assert BulkWire(arg)[..k] == [DOLLAR] + cut && ([DOLLAR] + cut)[1..] == cut;
      if k - 1 < |digits| + 2 {
        NoLineFeedYet(digits, arg + CRLF, k - 1);
        LineUnfinished(cut);
      } else {
        var rest := (arg + CRLF)[..k - 1 - |digits| - 2];
        assert cut == digits + CRLF + rest;
        NumberLine(|arg|, rest);
      }
    }
  }

  lemma NoLineFeedYet(digits: ByteString, rest: ByteString, k: nat)
    requires (forall b :: b in digits ==> 48 <= b <= 57) && k < |digits| + 2
    ensures LF !in (digits + CRLF + rest)[..k]
  {
    var s := digits + CRLF + rest;
    forall i | 0 <= i < k ensures s[i] != LF {
      if i < |digits| {
        assert s[i] == digits[i] && digits[i] in digits;
      }
    }
  }

  lemma {:induction false} BulksCutOff(args: seq<ByteString>, k: nat)
    requires (forall arg :: arg in args ==> Fits(arg)) && k < |BulksWire(args)|
    ensures StringsAt(BulksWire(args)[..k], |args|) == EndOfInput
    decreases |args|
  {
    hide BulkWire, StringAt, Fits;
    var first, more, wire := args[0], args[1..], BulksWire(args);
    assert first in args && forall arg :: arg in more ==> arg in args;
    if k < |BulkWire(first)| {
      BulkCutOff(first, k);
      assert wire[..k] == BulkWire(first)[..k];
    } else {
      var cut := BulksWire(more)[..k - |BulkWire(first)|];
      assert wire[..k] == BulkWire(first) + cut;
      BulkRoundTrip(first, cut);
      BulksCutOff(more, k - |BulkWire(first)|);
    }
  }

  lemma CommandCutOff(args: seq<ByteString>, k: nat)
    requires SendableCommand(args) && k < |ArrayWire(args)|
    ensures ArrayAt(ArrayWire(args)[..k]) == EndOfInput
  {
    hide Decimal, ParseInt64, LineAt, BulksWire, StringsAt, Fits;
    if k > 0 {
      var digits := Decimal(|args|);
      var body := digits + CRLF + BulksWire(args);
      assert ArrayWire(args) == [STAR] + body;
      var cut := body[..k - 1];
      assert ArrayWire(args)[..k] == [STAR] + cut && ([STAR] + cut)[1..] == cut;
      if k - 1 < |digits| + 2 {
        NoLineFeedYet(digits, BulksWire(args), k - 1);
        LineUnfinished(cut);
      } else {
        var rest := BulksWire(args)[..k - 1 - |digits| - 2];
        assert cut == digits + CRLF + rest;
        NumberLine(|args|, rest);
        BulksCutOff(args, |rest|);
      }
    }
  }

  /** Simple strings and integers are lines; anything else that is not a bulk string is refused. */
  lemma OtherItems(prefix: byte, line: ByteString, tail: ByteString)
    requires LF !in line && prefix != 36
    ensures StringAt([prefix] + line + CRLF + tail) == if prefix == 43 || prefix == 58 then Got(line, tail)
      else ProtocolError
  {
    hide LineAt;
    var s := [prefix] + line + CRLF + tail;
    assert s[1..] == line + CRLF + tail;
    LineRoundTrip(line, tail);
  }

  /** A bulk string whose payload is not followed by a line end is refused. */
  lemma BadLineEnd(arg: ByteString, end: ByteString, tail: ByteString)
    requires Fits(arg) && |end| == 2 && end != CRLF
    ensures StringAt([DOLLAR] + (Decimal(|arg|) + CRLF + (arg + end + tail))) == ProtocolError
  {
    hide Decimal, ParseInt64, LineAt;
    var rest := arg + end + tail;
    assert ([DOLLAR] + (Decimal(|arg|) + CRLF + rest))[1..] == Decimal(|arg|) + CRLF + rest;
    NumberLine(|arg|, rest);
    assert rest[|arg|] == end[0] && rest[|arg| + 1] == end[1];
  }

  /** What does not begin as an array is refused. */
  lemma NotAnArray(first: byte, tail: ByteString)
    requires first != 42
    ensures ArrayAt([first] + tail) == ProtocolError
  {
    hide LineAt, ParseInt64;
  }
}
