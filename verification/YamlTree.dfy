/**
 YAML documents as values: scalars, mappings with ordered pairs, and sequences. White-space trimming and lower-casing
 are parameters of the operations that use them.
 */
module YamlTree {
  import opened Options

  datatype Node =
    | Scalar(tag: string, value: string)
    | Mapping(pairs: seq<Pair>)
    | Sequence(items: seq<Node>)

  datatype Pair = Pair(key: string, value: Node)

  type Path = seq<string>

  datatype Text = Text(trim: string -> string, lower: string -> string)

  function Keys(pairs: seq<Pair>): (keys: seq<string>)
    ensures |keys| == |pairs|
    ensures forall i :: 0 <= i < |pairs| ==> keys[i] == pairs[i].key
  {
    if pairs == [] then [] else [pairs[0].key] + Keys(pairs[1..])
  }

  predicate HasKey(pairs: seq<Pair>, key: string) {
    exists i :: 0 <= i < |pairs| && pairs[i].key == key
  }

  /** The first pair with the key, or -1. */
  function FindKey(pairs: seq<Pair>, key: string): (r: int)
    ensures r == -1 <==> !HasKey(pairs, key)
    ensures r != -1 ==> 0 <= r < |pairs| && pairs[r].key == key && forall i :: 0 <= i < r ==> pairs[i].key != key
  {
    if pairs == [] then -1
    else if pairs[0].key == key then 0
    else
      var r := FindKey(pairs[1..], key);
      assert r != -1 ==> pairs[r + 1].key == key;
      assert forall i :: 1 <= i < |pairs| ==> pairs[i] == pairs[1..][i - 1];
      if r == -1 then -1 else r + 1
  }

  function Lookup(pairs: seq<Pair>, key: string): Option<Node> {
    var i := FindKey(pairs, key);
    if i < 0 then None else Some(pairs[i].value)
  }

  function Pairs(node: Option<Node>): seq<Pair> {
    if node.Some? && node.value.Mapping? then node.value.pairs else []
  }

  ghost predicate Distinct(pairs: seq<Pair>) {
    forall i, j :: 0 <= i < j < |pairs| ==> pairs[i].key != pairs[j].key
  }

  /** Keys are distinct in every mapping, and none is blank. */
  ghost predicate Proper(t: Text, node: Node)
    decreases node
  {
    match node
    case Scalar(_, _) => true
    case Mapping(pairs) =>
      Distinct(pairs) && forall i :: 0 <= i < |pairs| ==> t.trim(pairs[i].key) != "" && Proper(t, pairs[i].value)
    case Sequence(items) => forall i :: 0 <= i < |items| ==> Proper(t, items[i])
  }

  // ---------- Default values ----------

  predicate IsZeroScalar(tag: string, value: string) {
    match tag
    case "!!bool" => value == "false"
    case "!!int" => value == "0" || value == "0.0"
    case "!!float" => value == "0" || value == "0.0"
    case "!!str" => value == ""
    case "!!null" => true
    case _ => false
  }

  predicate IsZero(node: Node)
    decreases node
  {
    match node
    case Scalar(tag, value) => IsZeroScalar(tag, value)
    case Mapping(pairs) => forall i :: 0 <= i < |pairs| ==> IsZero(pairs[i].value)
    case Sequence(items) => forall i :: 0 <= i < |items| ==> IsZero(items[i])
  }

  function Dotted(path: Path): string {
    if path == [] then "" else if |path| == 1 then path[0] else path[0] + "." + Dotted(path[1..])
  }

  /** The non-zero values that the configuration assumes anyway. */
  predicate IsNonZeroDefault(path: Path, node: Node) {
    path != [] && node.Scalar? &&
    var full := Dotted(path);
    if node.tag == "!!str" then
      || (full == "pprof.addr" && node.value == "127.0.0.1:8316")
      || (full == "remote-management.panel-github-repository" && node.value == "https://github.com/PandaSt0rm/aiproxy")
      || (full == "plugins.dir" && node.value == "plugins")
      || (full == "routing.strategy" && node.value == "round-robin")
    else node.tag == "!!int" && full == "error-logs-max-files" && node.value == "10"
  }

  predicate IsWeight(path: Path, node: Node) {
    path != [] && path[|path| - 1] == "weight" && node.Scalar? && node.tag == "!!int"
  }

  predicate IsKnownDefault(path: Path, node: Node) {
    !IsWeight(path, node) && (IsZero(node) || IsNonZeroDefault(path, node))
  }

  predicate IsEmptyCollection(node: Node) {
    (node.Mapping? && node.pairs == []) || (node.Sequence? && node.items == [])
  }

  /** Removes default-valued descendants from a subtree that is about to be added. */
  function Prune(path: Path, node: Node): (r: Node)
    ensures r.Scalar? == node.Scalar? && r.Mapping? == node.Mapping?
    ensures node.Scalar? ==> r == node
    decreases node, 1
  {
    match node
    case Scalar(_, _) => node
    case Mapping(pairs) => Mapping(PrunePairs(path, pairs))
    case Sequence(items) => Sequence(PruneItems(path, items))
  }

  function PrunePairs(path: Path, pairs: seq<Pair>): seq<Pair>
    decreases pairs, 0
  {
    if pairs == [] then []
    else
      var child := path + [pairs[0].key];
      var pruned := Prune(child, pairs[0].value);
      var rest := PrunePairs(path, pairs[1..]);
      if IsKnownDefault(child, pairs[0].value) || IsEmptyCollection(pruned) then rest
      else [Pair(pairs[0].key, pruned)] + rest
  }

  function PruneItems(path: Path, items: seq<Node>): (r: seq<Node>)
    ensures |r| == |items|
    decreases items, 0
  {
    if items == [] then [] else [Prune(path, items[0])] + PruneItems(path, items[1..])
  }

  method PruneKnownDefaults(path: Path, node: Node) returns (r: Node)
    ensures r == Prune(path, node)
    decreases node, 1
  {
    hide IsKnownDefault, IsEmptyCollection;
    match node {
      case Scalar(_, _) => r := node;
      case Mapping(pairs) =>
        var filtered: seq<Pair> := [];
        for i := 0 to |pairs|
          invariant filtered + PrunePairs(path, pairs[i..]) == PrunePairs(path, pairs)
        {
          assert pairs[i..][0] == pairs[i] && pairs[i..][1..] == pairs[i + 1..];
          var child := path + [pairs[i].key];
          if !IsKnownDefault(child, pairs[i].value) {
            var value := PruneKnownDefaults(child, pairs[i].value);
            if !IsEmptyCollection(value) {
              filtered := filtered + [Pair(pairs[i].key, value)];
            }
          }
        }
        assert pairs[|pairs|..] == [] && filtered + [] == filtered;
        r := Mapping(filtered);
      case Sequence(items) =>
        var content: seq<Node> := [];
        for i := 0 to |items|
          invariant content + PruneItems(path, items[i..]) == PruneItems(path, items)
        {
          assert items[i..][0] == items[i] && items[i..][1..] == items[i + 1..];
          var item := PruneKnownDefaults(path, items[i]);
          content := content + [item];
        }
        assert items[|items|..] == [] && content + [] == content;
        r := Sequence(content);
    }
  }

  // ---------- Exactly which new subtrees are dropped ----------

  /** Nothing in the subtree differs from what the configuration assumes anyway. */
  predicate OnlyDefaults(path: Path, node: Node)
    decreases node, 1
  {
    match node
    case Scalar(_, _) => IsZero(node) || IsNonZeroDefault(path, node)
    case _ => Hollow(path, node)
  }

  /** The same for an element of a sequence, where only zero scalars count as defaults. */
  predicate Hollow(path: Path, node: Node)
    decreases node, 0
  {
    match node
    case Scalar(_, _) => IsZero(node)
    case Mapping(pairs) => forall i :: 0 <= i < |pairs| ==> OnlyDefaults(path + [pairs[i].key], pairs[i].value)
    case Sequence(items) => forall i :: 0 <= i < |items| ==> Hollow(path, items[i])
  }

  lemma {:induction false} ZeroIsHollow(path: Path, node: Node)
    requires IsZero(node)
    ensures Hollow(path, node)
    decreases node
  {
    match node
    case Scalar(_, _) =>
    case Mapping(pairs) =>
      forall i | 0 <= i < |pairs| ensures OnlyDefaults(path + [pairs[i].key], pairs[i].value) {
        ZeroIsHollow(path + [pairs[i].key], pairs[i].value);
      }
    case Sequence(items) =>
      forall i | 0 <= i < |items| ensures Hollow(path, items[i]) {
        ZeroIsHollow(path, items[i]);
      }
  }

  /** Pruning leaves only zero values exactly when there was nothing but defaults. */
  lemma {:induction false} PrunedZero(path: Path, node: Node)
    ensures IsZero(Prune(path, node)) <==> Hollow(path, node)
    decreases node, 1
  {
    match node
    case Scalar(_, _) =>
    case Mapping(pairs) => PrunedPairsZero(path, pairs);
    case Sequence(items) => PrunedItemsZero(path, items);
  }

  predicate AllZero(pairs: seq<Pair>) {
    forall i :: 0 <= i < |pairs| ==> IsZero(pairs[i].value)
  }

  predicate AllDefaults(path: Path, pairs: seq<Pair>) {
    forall i :: 0 <= i < |pairs| ==> OnlyDefaults(path + [pairs[i].key], pairs[i].value)
  }

  lemma ConsAllZero(pair: Pair, rest: seq<Pair>)
    ensures AllZero([pair] + rest) <==> IsZero(pair.value) && AllZero(rest)
  {
    assert ([pair] + rest)[0] == pair;
    assert forall i :: 0 <= i < |rest| ==> ([pair] + rest)[i + 1] == rest[i];
  }

  lemma {:induction false} PrunedPairsZero(path: Path, pairs: seq<Pair>)
    ensures AllZero(PrunePairs(path, pairs)) <==> AllDefaults(path, pairs)
    decreases pairs, 0
  {
    if pairs != [] {
      var first, rest := pairs[0], pairs[1..];
      PrunedPairsZero(path, rest);
      PrunedChild(path + [first.key], first.value);
      ConsAllZero(Pair(first.key, Prune(path + [first.key], first.value)), PrunePairs(path, rest));
      assert forall i :: 1 <= i < |pairs| ==> pairs[i] == rest[i - 1];
      assert AllDefaults(path, pairs) <==> OnlyDefaults(path + [first.key], first.value) && AllDefaults(path, rest);
    }
  }

  lemma {:induction false} DottedEnd(path: Path)
    requires path != [] && path[|path| - 1] != ""
    ensures var full, last := Dotted(path), path[|path| - 1]; full != "" && full[|full| - 1] == last[|last| - 1]
    decreases |path|
  {
    if |path| > 1 {
      DottedEnd(path[1..]);
    }
  }

  /** No weight is among the non-zero defaults. */
  lemma WeightNotDefault(path: Path, node: Node)
    requires IsWeight(path, node)
    ensures !IsNonZeroDefault(path, node)
  {
    DottedEnd(path);
    assert "weight"[5] == 't' && "error-logs-max-files"[19] == 's';
  }

  lemma PrunedChild(path: Path, node: Node)
    ensures OnlyDefaults(path, node) <==>
      IsKnownDefault(path, node) || IsEmptyCollection(Prune(path, node)) || IsZero(Prune(path, node))
    decreases node, 2
  {
    PrunedZero(path, node);
    if IsWeight(path, node) {
      WeightNotDefault(path, node);
    }
    if !node.Scalar? && IsZero(node) {
      ZeroIsHollow(path, node);
    }
  }

  predicate AllItemsZero(items: seq<Node>) {
    forall i :: 0 <= i < |items| ==> IsZero(items[i])
  }

  predicate AllHollow(path: Path, items: seq<Node>) {
    forall i :: 0 <= i < |items| ==> Hollow(path, items[i])
  }

  lemma ConsItemsZero(item: Node, rest: seq<Node>)
    ensures AllItemsZero([item] + rest) <==> IsZero(item) && AllItemsZero(rest)
  {
    hide IsZero;
    assert ([item] + rest)[0] == item;
    assert forall i :: 0 <= i < |rest| ==> ([item] + rest)[i + 1] == rest[i];
  }

  lemma {:induction false} PrunedItemsZero(path: Path, items: seq<Node>)
    ensures AllItemsZero(PruneItems(path, items)) <==> AllHollow(path, items)
    decreases items, 0
  {
    if items != [] {
      var first, rest := items[0], items[1..];
      PrunedItemsZero(path, rest);
      PrunedZero(path, first);
      var pruned := PruneItems(path, rest);
      assert forall i :: 0 <= i < |rest| ==>
        items[i + 1] == rest[i] && ([Prune(path, first)] + pruned)[i + 1] == pruned[i];
      assert AllHollow(path, items) <==> Hollow(path, first) && AllHollow(path, rest);
      ConsItemsZero(Prune(path, first), pruned);
    }
  }
}
