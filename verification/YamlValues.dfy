/**
 Which values of a generated configuration are written under a key that the file lacks, told by the values themselves
 and not by the tests on nodes.
 */
module YamlValues {
  import opened Options
  import opened YamlTree
  import opened YamlMerge
  import opened YamlCoverage

  /** A value of a configuration; a float is a whole part and one decimal. */
  datatype Value = Bool(on: bool) | Int(number: int) | Float(whole: int, tenths: nat) | Str(text: string) | Null

  function Digit(d: nat): char
    requires d < 10
  {
    ['0', '1', '2', '3', '4', '5', '6', '7', '8', '9'][d]
  }

  function DigitsOf(n: nat): (s: string)
    ensures |s| > 0 && forall i :: 0 <= i < |s| ==> '0' <= s[i] <= '9'
  {
    (if n < 10 then "" else DigitsOf(n / 10)) + [Digit(n % 10)]
  }

  function Signed(n: int): string {
    if n < 0 then "-" + DigitsOf(-n) else DigitsOf(n)
  }

  /** The scalar that the encoder writes for a value. */
  function Form(v: Value): Node
    requires v.Float? ==> v.tenths < 10
  {
    match v
    case Bool(on) => Scalar("!!bool", if on then "true" else "false")
    case Int(n) => Scalar("!!int", Signed(n))
    case Float(whole, tenths) => Scalar("!!float", Signed(whole) + "." + DigitsOf(tenths))
    case Str(text) => Scalar("!!str", text)
    case Null => Scalar("!!null", "null")
  }

  const ZERO_VALUES: set<Value> := {Bool(false), Int(0), Float(0, 0), Str(""), Null}

  lemma {:induction false} OnlyZeroIsZero(n: nat)
    ensures DigitsOf(n) == "0" <==> n == 0
    ensures n >= 10 ==> |DigitsOf(n)| > 1
  {
    if n >= 10 {
      assert |DigitsOf(n / 10)| > 0;
    } else {
      assert "" + [Digit(n % 10)] == [Digit(n)];
    }
  }

  lemma SignedZero(n: int)
    ensures Signed(n) == "0" <==> n == 0
    ensures Signed(n) != "0.0" && |Signed(n)| > 0
    ensures forall i :: 0 <= i < |Signed(n)| ==> Signed(n)[i] != '.'
  {
    hide DigitsOf;
    if n < 0 {
      assert Signed(n)[0] == '-' && "0"[0] == '0' && "0.0"[0] == '0';
    } else {
      OnlyZeroIsZero(n);
      assert "0.0"[1] == '.';
    }
  }

  lemma FloatZero(whole: int, tenths: nat)
    requires tenths < 10
    ensures var s := Signed(whole) + "." + DigitsOf(tenths); s != "0" && (s == "0.0" <==> whole == 0 && tenths == 0)
  {
    hide DigitsOf, Signed;
    SignedZero(whole);
    OnlyZeroIsZero(tenths);
    var a, b := Signed(whole), DigitsOf(tenths);
    var s := a + "." + b;
    assert s[|a|] == '.' && |s| > 1;
    if s == "0.0" {
      assert "0.0"[0] == '0' && "0.0"[2] == '0';
      assert |a| == 1 && a == ['0'] && b == s[2..] == ['0'];
    }
  }

  /** The test on nodes recognizes exactly the zero values. */
  lemma ZeroIsZero(v: Value)
    requires v.Float? ==> v.tenths < 10
    ensures IsZero(Form(v)) <==> v in ZERO_VALUES
  {
    hide DigitsOf, Signed;
    match v
    case Bool(on) => assert "true" != "false" by { assert "true"[0] == 't' && "false"[0] == 'f'; }
    case Int(n) => SignedZero(n);
    case Float(whole, tenths) => FloatZero(whole, tenths);
    case Str(_) =>
    case Null =>
  }

  // ---------- Values that are assumed anyway ----------

  /** The values other than zero that need not be written, each at its own place. */
  const TABLE: seq<(Path, Value)> := [
    (["pprof", "addr"], Str("127.0.0.1:8316")),
    (["remote-management", "panel-github-repository"], Str("https://github.com/PandaSt0rm/aiproxy")),
    (["plugins", "dir"], Str("plugins")),
    (["routing", "strategy"], Str("round-robin")),
    (["error-logs-max-files"], Int(10))]

  /** The path written with dots; a dot inside a key is not told apart. */
  lemma {:induction false} DottedSnoc(path: Path, key: string)
    ensures Dotted(path + [key]) == if path == [] then key else Dotted(path) + "." + key
  {
    if path == [] {
      assert path + [key] == [key];
    } else {
      DottedSnoc(path[1..], key);
      assert (path + [key])[1..] == path[1..] + [key];
      if |path| > 1 {
        assert path[0] + "." + (Dotted(path[1..]) + "." + key) == path[0] + "." + Dotted(path[1..]) + "." + key;
      } else {
        assert path[1..] == [];
      }
    }
  }

  lemma DottedTwo(a: string, b: string)
    ensures Dotted([a, b]) == a + "." + b
  {
    assert [a, b] == [a] + [b];
    DottedSnoc([a], b);
  }

  const NAMES: seq<string> := [
    "pprof.addr", "remote-management.panel-github-repository", "plugins.dir", "routing.strategy",
    "error-logs-max-files"]

  lemma NameOfTwo(a: string, b: string, name: string)
    requires a + "." + b == name
    ensures Dotted([a, b]) == name
  {
    DottedTwo(a, b);
  }

  lemma LongName()
    ensures "remote-management" + "." + "panel-github-repository" == "remote-management.panel-github-repository"
  {
  }

  lemma ShortNames()
    ensures "pprof" + "." + "addr" == "pprof.addr" && "plugins" + "." + "dir" == "plugins.dir"
    ensures "routing" + "." + "strategy" == "routing.strategy"
  {
  }

  /** Where the entries of the table stand. */
  lemma TableNames(n: nat)
    requires n < |TABLE|
    ensures Dotted(TABLE[n].0) == NAMES[n]
  {
    hide Dotted;
    LongName();
    ShortNames();
    NameOfTwo("pprof", "addr", "pprof.addr");
    NameOfTwo("remote-management", "panel-github-repository", "remote-management.panel-github-repository");
    NameOfTwo("plugins", "dir", "plugins.dir");
    NameOfTwo("routing", "strategy", "routing.strategy");
    assert [] + ["error-logs-max-files"] == ["error-logs-max-files"];
    DottedSnoc([], "error-logs-max-files");
  }

  lemma NamesDiffer(m: nat, n: nat)
    requires m < |NAMES| && n < |NAMES|
    ensures NAMES[m] == NAMES[n] <==> m == n
  {
    assert |NAMES[0]| == 10 && |NAMES[1]| == 41 && |NAMES[2]| == 11 && |NAMES[3]| == 16 && |NAMES[4]| == 20;
  }

  function Front(n: nat): string {
    if n < 10 then "" else DigitsOf(n / 10)
  }

  lemma DigitsEnd(n: nat)
    ensures DigitsOf(n) == Front(n) + [Digit(n % 10)]
  {
  }

  lemma SameEnds(x: string, a: char, y: string, b: char)
    ensures x + [a] == y + [b] <==> x == y && a == b
  {
    if x + [a] == y + [b] {
      assert (x + [a])[..|x|] == x && (y + [b])[..|y|] == y;
      assert (x + [a])[|x|] == a && (y + [b])[|y|] == b;
    }
  }

  lemma SameDigit(m: nat, n: nat)
    requires m < 10 && n < 10
    ensures Digit(m) == Digit(n) <==> m == n
  {
  }

  lemma {:induction false} DigitsInjective(m: nat, n: nat)
    ensures DigitsOf(m) == DigitsOf(n) <==> m == n
  {
    hide DigitsOf, Digit;
    DigitsEnd(m);
    DigitsEnd(n);
    SameEnds(Front(m), Digit(m % 10), Front(n), Digit(n % 10));
    SameDigit(m % 10, n % 10);
    if m >= 10 && n >= 10 {
      DigitsInjective(m / 10, n / 10);
    }
  }

  lemma SignedTen(n: int)
    ensures Signed(n) == "10" <==> n == 10
  {
    hide DigitsOf;
    TenIs();
    if n < 0 {
      assert Signed(n)[0] == '-' && "10"[0] == '1';
    } else {
      DigitsInjective(n, 10);
    }
  }

  lemma TenIs()
    ensures DigitsOf(10) == "10"
  {
    assert DigitsOf(1) == "" + ['1'];
    assert DigitsOf(10) == DigitsOf(1) + ['0'];
    assert "10" == ['1', '0'];
  }

  lemma DefaultIff(path: Path, v: Value, n: nat)
    requires v.Float? ==> v.tenths < 10
    requires n < |NAMES| && path != [] && Dotted(path) == NAMES[n]
    ensures IsNonZeroDefault(path, Form(v)) <==> v == TABLE[n].1
  {
    hide Dotted, Signed, DigitsOf;
    forall m | 0 <= m < |NAMES| ensures NAMES[m] == NAMES[n] <==> m == n {
      NamesDiffer(m, n);
    }
    assert NAMES[0] == "pprof.addr" && NAMES[2] == "plugins.dir" && NAMES[3] == "routing.strategy";
    assert NAMES[1] == "remote-management.panel-github-repository" && NAMES[4] == "error-logs-max-files";
    TagsDiffer();
    if v.Int? {
      SignedTen(v.number);
    }
  }

  lemma TagsDiffer()
    ensures "!!str" != "!!int" && "!!str" != "!!bool" && "!!str" != "!!float" && "!!str" != "!!null"
    ensures "!!int" != "!!bool" && "!!int" != "!!float" && "!!int" != "!!null"
  {
    assert "!!str"[2] == 's' && "!!int"[2] == 'i' && "!!bool"[2] == 'b' && "!!float"[2] == 'f' && "!!null"[2] == 'n';
  }

  lemma NoDefaultElsewhere(path: Path, node: Node)
    requires path == [] || Dotted(path) !in NAMES
    ensures !IsNonZeroDefault(path, node)
  {
    hide Dotted;
    assert NAMES[0] == "pprof.addr" && NAMES[2] == "plugins.dir" && NAMES[3] == "routing.strategy";
    assert NAMES[1] == "remote-management.panel-github-repository" && NAMES[4] == "error-logs-max-files";
  }

  // ---------- What a merge writes ----------

  /** The values that are not written at a path. */
  ghost predicate Assumed(path: Path, v: Value) {
    v in ZERO_VALUES || exists n :: 0 <= n < |TABLE| && Dotted(path) == NAMES[n] && v == TABLE[n].1
  }

  lemma AssumedIff(path: Path, v: Value)
    requires path != [] && (v.Float? ==> v.tenths < 10)
    ensures OnlyDefaults(path, Form(v)) <==> Assumed(path, v)
  {
    hide Dotted, Signed, DigitsOf, IsZero, IsNonZeroDefault;
    ZeroIsZero(v);
    if n :| 0 <= n < |NAMES| && Dotted(path) == NAMES[n] {
      forall m | 0 <= m < |NAMES| ensures NAMES[m] == NAMES[n] <==> m == n {
        NamesDiffer(m, n);
      }
      DefaultIff(path, v, n);
    } else {
      NoDefaultElsewhere(path, Form(v));
    }
  }

  /**
   A generated value under a key that the destination lacks is written, as it is, exactly if it is not zero and not the
   value assumed at its path. An integer weight is always written.
   */
  lemma ScalarWritten(t: Text, path: Path, dst: seq<Pair>, src: seq<Pair>, i: nat, v: Value)
    requires Proper(t, Mapping(src)) && i < |src| && !HasKey(dst, src[i].key)
    requires (v.Float? ==> v.tenths < 10) && src[i].value == Form(v)
    ensures var result := MergeNode(t, path, Mapping(dst), Mapping(src));
      && result.Mapping?
      && Lookup(result.pairs, src[i].key) ==
           if Assumed(path + [src[i].key], v) && !(src[i].key == "weight" && v.Int?) then None else Some(Form(v))
  {
    hide Assumed, OnlyDefaults, MergePairs, IsKnownDefault, Dotted, Signed, DigitsOf;
    var child := path + [src[i].key];
    KeyAdded(t, path, dst, src, i);
    AssumedIff(child, v);
    TagsDiffer();
    FoundAt(src, i);
    LookupMerged(t, path, dst, src, src[i].key);
  }

  /** An entry of the table is dropped at its own place, and any other value that is not zero is written there. */
  lemma TableDropped(t: Text, dst: seq<Pair>, src: seq<Pair>, i: nat, n: nat, path: Path, v: Value)
    requires Proper(t, Mapping(src)) && i < |src| && !HasKey(dst, src[i].key)
    requires n < |TABLE| && path + [src[i].key] == TABLE[n].0
    requires (v.Float? ==> v.tenths < 10) && src[i].value == Form(v)
    ensures HasKey(MergeNode(t, path, Mapping(dst), Mapping(src)).pairs, src[i].key) <==>
      v !in ZERO_VALUES && v != TABLE[n].1
  {
    hide MergeNode, Dotted, Signed, DigitsOf, Form;
    ScalarWritten(t, path, dst, src, i, v);
    TableNames(n);
    forall m | 0 <= m < |NAMES| ensures NAMES[m] == NAMES[n] <==> m == n {
      NamesDiffer(m, n);
    }
    TableKeys(n, path, src[i].key);
  }

  lemma TableKeys(n: nat, path: Path, key: string)
    requires n < |TABLE| && path + [key] == TABLE[n].0
    ensures key != "weight"
  {
    var place := TABLE[n].0;
    assert key == place[|place| - 1];
    assert "weight"[0] == 'w' && "addr"[0] == 'a' && "panel-github-repository"[0] == 'p' && "dir"[0] == 'd';
    assert "strategy"[0] == 's' && "error-logs-max-files"[0] == 'e';
  }
}
