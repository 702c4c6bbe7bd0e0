/**
 What becomes of the explicit weights of a generated tree. A zero weight means something, but the pruning of new keys
 judges whole collections: this is exactly when a weight is still there after a merge.
 */
module YamlWeights {
  import opened Options
  import opened YamlTree
  import opened YamlMerge
  import opened YamlCoverage

  /** A place in a tree: under a key of a mapping, or at a position of a sequence. */
  datatype Turn = Under(key: string) | At(index: nat)

  type Route = seq<Turn>

  function Child(node: Node, turn: Turn): Option<Node> {
    match turn
    case Under(key) => if node.Mapping? then Lookup(node.pairs, key) else None
    case At(index) => if node.Sequence? && index < |node.items| then Some(node.items[index]) else None
  }

  function Find(node: Node, route: Route): Option<Node>
    decreases |route|
  {
    if route == [] then Some(node)
    else
      var child := Child(node, route[0]);
      if child.None? then None else Find(child.value, route[1..])
  }

  /** The keys on a route; positions are not part of the path by which defaults are known. */
  function Names(route: Route): Path {
    if route == [] then [] else (if route[0].Under? then [route[0].key] else []) + Names(route[1..])
  }

  /** The route leads to an integer under the key "weight". */
  predicate IsWeightAt(src: Node, route: Route) {
    && route != [] && route[|route| - 1] == Under("weight")
    && var w := Find(src, route); w.Some? && w.value.Scalar? && w.value.tag == "!!int"
  }

  /** Where a merge stops following the destination: it copies from there on, or it meets the first key that is new. */
  datatype Descent = Copied | NewKey(depth: nat)

  function Deeper(d: Descent): Descent {
    if d.NewKey? then NewKey(d.depth + 1) else Copied
  }

  /** The existing node that the merge uses for a child of `src`. */
  function Counterpart(t: Text, dst: Node, src: Node, turn: Turn): Option<Node>
    requires Child(src, turn).Some?
  {
    match turn
    case Under(key) => Lookup(Pairs(Some(dst)), key)
    case At(index) =>
      var original := Items(Some(dst));
      Taken(original, Assign(t, original, NoneUsed(|original|), src.items)[index])
  }

  function Descend(t: Text, dst: Node, src: Node, route: Route): (r: Descent)
    requires Find(src, route).Some?
    ensures r.NewKey? ==> 0 < r.depth <= |route|
    decreases |route|
  {
    if route == [] || (route[0].Under? && !dst.Mapping?) then Copied
    else
      var was := Counterpart(t, dst, src, route[0]);
      if was.Some? then Deeper(Descend(t, was.value, Child(src, route[0]).value, route[1..]))
      else if route[0].Under? then NewKey(1) else Copied
  }

  /** No collection stored under a key on the way holds zero values only. */
  predicate Clear(node: Node, route: Route) {
    forall m :: 0 < m < |route| && route[m - 1].Under? ==> !ZeroAt(node, route[..m])
  }

  predicate ZeroAt(node: Node, route: Route) {
    var v := Find(node, route); v.Some? && IsZero(v.value)
  }

  lemma {:induction false} FindFirst(node: Node, route: Route)
    requires route != []
    ensures Find(node, route[..1]) == Child(node, route[0])
  {
    var one := route[..1];
    assert one[0] == route[0] && one[1..] == [];
  }

  lemma ClearStep(node: Node, route: Route)
    requires |route| > 1 && Child(node, route[0]).Some?
    ensures var child := Child(node, route[0]).value;
      Clear(node, route) <==> (route[0].Under? ==> !IsZero(child)) && Clear(child, route[1..])
  {
    hide IsZero;
    var child, rest := Child(node, route[0]).value, route[1..];
    FindFirst(node, route);
    forall m | 1 < m < |route| ensures ZeroAt(node, route[..m]) <==> ZeroAt(child, rest[..m - 1]) {
      assert route[..m][0] == route[0] && route[..m][1..] == rest[..m - 1];
    }
    if Clear(node, route) {
      forall m | 0 < m < |rest| && rest[m - 1].Under? ensures !ZeroAt(child, rest[..m]) {
        assert rest[m - 1] == route[m];
        assert !ZeroAt(node, route[..m + 1]);
      }
      if route[0].Under? {
        assert !ZeroAt(node, route[..1]);
      }
    }
    if (route[0].Under? ==> !IsZero(child)) && Clear(child, rest) {
      forall m | 0 < m < |route| && route[m - 1].Under? ensures !ZeroAt(node, route[..m]) {
        if m > 1 {
          assert rest[m - 2] == route[m - 1];
          assert !ZeroAt(child, rest[..m - 1]);
        }
      }
    }
  }

  // ---------- Pruning ----------

  lemma RestIsWeightAt(src: Node, route: Route)
    requires IsWeightAt(src, route) && |route| > 1
    ensures Child(src, route[0]).Some? && IsWeightAt(Child(src, route[0]).value, route[1..])
    ensures !Child(src, route[0]).value.Scalar?
  {
    assert route[1..][|route| - 2] == route[|route| - 1];
  }

  lemma OnlyStep(src: Node, route: Route)
    requires IsWeightAt(src, route) && |route| == 1
    ensures src.Mapping? && route[0] == Under("weight") && Child(src, route[0]) == Find(src, route)
  {
    assert route[1..] == [];
  }

  lemma NothingInEmpty(node: Node, route: Route)
    requires IsEmptyCollection(node) && route != []
    ensures Find(node, route).None?
  {
  }

  lemma ProperChild(t: Text, node: Node, turn: Turn)
    requires Proper(t, node) && Child(node, turn).Some?
    ensures Proper(t, Child(node, turn).value)
  {
  }

  /** What pruning leaves under a key, for a collection or a weight. */
  lemma PrunedUnder(t: Text, path: Path, node: Node, key: string)
    requires Proper(t, node) && Child(node, Under(key)).Some?
    ensures var v, child := Child(node, Under(key)).value, path + [key];
      Child(Prune(path, node), Under(key)) ==
        if IsKnownDefault(child, v) || IsEmptyCollection(Prune(child, v)) then None else Some(Prune(child, v))
  {
    hide IsKnownDefault, IsEmptyCollection, PrunePairs;
    LookupPruned(path, node.pairs, key);
  }

  /** In a pruned subtree a weight is left exactly if no collection under a key on the way is zero. */
  lemma {:induction false} PrunedRoute(t: Text, path: Path, node: Node, route: Route)
    requires Proper(t, node) && IsWeightAt(node, route)
    ensures Find(Prune(path, node), route) == if Clear(node, route) then Find(node, route) else None
    decreases |route|
  {
    hide Prune, Proper, Clear, IsZero;
    if |route| == 1 {
      OnlyStep(node, route);
      PrunedWeight(t, path, node, route);
    } else {
      RestIsWeightAt(node, route);
      ClearStep(node, route);
      var child := Child(node, route[0]).value;
      ProperChild(t, node, route[0]);
      match route[0]
      case Under(key) =>
        PrunedUnder(t, path, node, key);
        PrunedRoute(t, path + [key], child, route[1..]);
        if IsEmptyCollection(Prune(path + [key], child)) {
          NothingInEmpty(Prune(path + [key], child), route[1..]);
        }
        DefaultCollection(path + [key], child);
      case At(index) =>
        PrunedRoute(t, path, child, route[1..]);
        PrunedAt(path, node, index);
    }
  }

  lemma DefaultCollection(path: Path, node: Node)
    requires !node.Scalar?
    ensures IsKnownDefault(path, node) <==> IsZero(node)
  {
    hide IsZero;
  }

  lemma PrunedAt(path: Path, node: Node, index: nat)
    requires Child(node, At(index)).Some?
    ensures Child(Prune(path, node), At(index)) == Some(Prune(path, Child(node, At(index)).value))
  {
    PrunedItem(path, node.items, index);
  }

  lemma PrunedWeight(t: Text, path: Path, node: Node, route: Route)
    requires Proper(t, node) && IsWeightAt(node, route) && |route| == 1
    ensures Find(Prune(path, node), route) == Find(node, route) && Clear(node, route)
  {
    hide Proper;
    OnlyStep(node, route);
    PrunedUnder(t, path, node, "weight");
    var w := Child(node, route[0]).value;
    assert IsWeight(path + ["weight"], w);
    assert route[1..] == [];
  }

  // ---------- Merging ----------

  /** The weight is copied, is itself the new key, or the new subtree is added and keeps every collection on the way. */
  ghost predicate Survives(path: Path, src: Node, route: Route, d: Descent)
    requires Find(src, route).Some?
  {
    match d
    case Copied => true
    case NewKey(n) =>
      0 < n <= |route| && (n == |route| ||
      var top := Find(src, route[..n]);
      top.Some? && !OnlyDefaults(path + Names(route[..n]), top.value) && Clear(top.value, route[n..]))
  }

  lemma SurvivesDeeper(path: Path, src: Node, route: Route, d: Descent)
    requires route != [] && Find(src, route).Some? && (d.NewKey? ==> 0 < d.depth <= |route| - 1)
    ensures var below := if route[0].Under? then path + [route[0].key] else path;
      Survives(path, src, route, Deeper(d)) <==> Survives(below, Child(src, route[0]).value, route[1..], d)
  {
    hide OnlyDefaults, Clear;
    if d.NewKey? {
      var n, rest := d.depth, route[1..];
      var one := route[..n + 1];
      assert one[0] == route[0] && one[1..] == rest[..n] && route[n + 1..] == rest[n..];
      assert Names(one) == (if route[0].Under? then [route[0].key] else []) + Names(rest[..n]);
      if route[0].Under? {
        assert path + ([route[0].key] + Names(rest[..n])) == path + [route[0].key] + Names(rest[..n]);
      } else {
        assert path + ([] + Names(rest[..n])) == path + Names(rest[..n]);
      }
    }
  }

  /** An element loses only keys that were not generated. */
  lemma FindInElement(t: Text, path: Path, d: Node, item: Node, route: Route)
    requires Proper(t, item) && route != [] && Find(item, route).Some?
    ensures Find(MergeItem(t, path, Some(d), item), route) == Find(MergeNode(t, path, d, item), route)
  {
    hide MergeNode, DropMissing;
    var merged := MergeNode(t, path, d, item);
    if merged.Mapping? && item.Mapping? {
      var key := route[0].key;
      LookupDropped(t, merged.pairs, item.pairs, key);
      assert item.pairs[FindKey(item.pairs, key)].key == key;
    }
  }

  lemma MergedUnder(t: Text, path: Path, dst: Node, src: Node, key: string)
    requires Proper(t, src) && dst.Mapping? && Child(src, Under(key)).Some?
    ensures Child(MergeNode(t, path, dst, src), Under(key)) == MergedValue(t, path, dst.pairs, src.pairs, key)
  {
    hide MergePairs, MergedValue;
    LookupMerged(t, path, dst.pairs, src.pairs, key);
  }

  lemma MergedAt(t: Text, path: Path, dst: Node, src: Node, index: nat)
    requires Child(src, At(index)).Some?
    ensures Child(MergeNode(t, path, dst, src), At(index)) ==
      Some(MergeItem(t, path, Counterpart(t, dst, src, At(index)), src.items[index]))
  {
    hide MergeItem, Assign;
    var original := Items(Some(dst));
    MergedItem(t, path, original, Assign(t, original, NoneUsed(|original|), src.items), src.items, index);
  }

  lemma CopiedWhole(t: Text, path: Path, dst: Node, src: Node)
    requires Proper(t, src) && src.Mapping? && !dst.Mapping?
    ensures MergeNode(t, path, dst, src) == src
  {
    hide MergePairs;
    SelfMergePairs(t, path, src.pairs, 0);
    assert src.pairs[0..] == src.pairs;
  }

  /** A new key: its value is pruned, and added unless nothing but defaults is left. */
  lemma WeightUnderNewKey(t: Text, path: Path, dst: Node, src: Node, route: Route)
    requires Proper(t, src) && IsWeightAt(src, route) && route[0].Under? && dst.Mapping?
    requires Counterpart(t, dst, src, route[0]).None?
    ensures Find(MergeNode(t, path, dst, src), route) ==
      if Survives(path, src, route, NewKey(1)) then Find(src, route) else None
  {
    hide MergeNode, Prune, Proper, Clear, IsZero, OnlyDefaults, IsKnownDefault;
    var key := route[0].key;
    var child, v := path + [key], Child(src, route[0]).value;
    MergedUnder(t, path, dst, src, key);
    NotAdded(child, v);
    FindFirst(src, route);
    assert Names(route[..1]) == [key] by {
      assert route[..1][0] == route[0] && route[..1][1..] == [];
    }
    ProperChild(t, src, route[0]);
    if |route| == 1 {
      OnlyStep(src, route);
      assert IsWeight(child, v);
      PrunedScalar(child, v);
    } else {
      RestIsWeightAt(src, route);
      PrunedRoute(t, child, v, route[1..]);
    }
  }

  lemma PrunedScalar(path: Path, node: Node)
    requires node.Scalar?
    ensures Prune(path, node) == node
  {
  }

  /** The merge at one step of a route. */
  lemma WeightStep(t: Text, path: Path, dst: Node, src: Node, route: Route)
    requires Proper(t, src) && IsWeightAt(src, route) && (route[0].Under? ==> dst.Mapping?)
    requires Counterpart(t, dst, src, route[0]).Some?
    ensures var below := if route[0].Under? then path + [route[0].key] else path;
      var d, v := Counterpart(t, dst, src, route[0]).value, Child(src, route[0]).value;
      Find(MergeNode(t, path, dst, src), route) == Find(MergeNode(t, below, d, v), route[1..])
  {
    hide MergeNode, Proper, Counterpart, Assign;
    match route[0]
    case Under(key) =>
      MergedUnder(t, path, dst, src, key);
      CounterpartUnder(t, dst, src, key);
    case At(index) =>
      MergedAt(t, path, dst, src, index);
      ProperChild(t, src, route[0]);
      assert |route| > 1;
      FindInElement(t, path, Counterpart(t, dst, src, route[0]).value, src.items[index], route[1..]);
  }

  lemma CounterpartUnder(t: Text, dst: Node, src: Node, key: string)
    requires dst.Mapping? && Child(src, Under(key)).Some?
    ensures Counterpart(t, dst, src, Under(key)) == Lookup(dst.pairs, key)
  {
  }

  /** Exactly which weights of a generated tree are in the result of a merge. */
  lemma {:induction false} WeightKept(t: Text, path: Path, dst: Node, src: Node, route: Route)
    requires Proper(t, src) && IsWeightAt(src, route)
    ensures Find(MergeNode(t, path, dst, src), route) ==
      if Survives(path, src, route, Descend(t, dst, src, route)) then Find(src, route) else None
    decreases |route|
  {
    hide MergeNode, Proper, Counterpart, Clear, Survives;
    var was := Counterpart(t, dst, src, route[0]);
    if route[0].Under? && !dst.Mapping? {
      CopiedWhole(t, path, dst, src);
      CopiedSurvives(path, src, route);
    } else if was.None? {
      if route[0].Under? {
        WeightUnderNewKey(t, path, dst, src, route);
      } else {
        MergedAt(t, path, dst, src, route[0].index);
        CopiedSurvives(path, src, route);
      }
    } else {
      WeightStep(t, path, dst, src, route);
      var below := if route[0].Under? then path + [route[0].key] else path;
      var v := Child(src, route[0]).value;
      var d := Descend(t, was.value, v, route[1..]);
      SurvivesDeeper(path, src, route, d);
      if |route| > 1 {
        RestIsWeightAt(src, route);
        ProperChild(t, src, route[0]);
        WeightKept(t, below, was.value, v, route[1..]);
      } else {
        OnlyStep(src, route);
        MergedScalar(t, below, was.value, v);
        CopiedSurvives(below, v, route[1..]);
      }
    }
  }

  lemma CopiedSurvives(path: Path, src: Node, route: Route)
    requires Find(src, route).Some?
    ensures Survives(path, src, route, Copied)
  {
  }

  lemma MergedScalar(t: Text, path: Path, dst: Node, src: Node)
    requires src.Scalar?
    ensures MergeNode(t, path, dst, src) == src
  {
  }

  // ---------- Which weights are lost ----------

  lemma WeightIsChild(node: Node, turn: Turn)
    requires Child(node, turn).Some? && !IsZero(Child(node, turn).value)
    ensures !IsZero(node)
  {
  }

  lemma HollowChild(path: Path, node: Node, turn: Turn)
    requires Child(node, turn).Some?
    requires var v := Child(node, turn).value;
      if turn.Under? then !OnlyDefaults(path + [turn.key], v) else !Hollow(path, v)
    ensures !Hollow(path, node)
  {
    hide IsZero;
  }

  /** A subtree that holds a non-zero weight is neither zero nor made of defaults. */
  lemma {:induction false} HoldsNonZero(path: Path, node: Node, route: Route)
    requires IsWeightAt(node, route) && !IsZero(Find(node, route).value)
    ensures !node.Scalar? && !IsZero(node) && !Hollow(path, node) && Clear(node, route)
    decreases |route|
  {
    hide IsZero, Hollow, Clear;
    var below := if route[0].Under? then path + [route[0].key] else path;
    if |route| > 1 {
      RestIsWeightAt(node, route);
      HoldsNonZero(below, Child(node, route[0]).value, route[1..]);
      ClearStep(node, route);
    } else {
      OnlyStep(node, route);
      WeightNotDefault(below, Child(node, route[0]).value);
      ShortIsClear(node, route);
    }
    WeightIsChild(node, route[0]);
    HollowChild(path, node, route[0]);
  }

  lemma ShortIsClear(node: Node, route: Route)
    requires |route| == 1
    ensures Clear(node, route)
  {
  }

  lemma {:induction false} FindTail(node: Node, route: Route, n: nat)
    requires n <= |route| && Find(node, route).Some?
    ensures var top := Find(node, route[..n]); top.Some? && Find(top.value, route[n..]) == Find(node, route)
    decreases n
  {
    if n == 0 {
      assert route[0..] == route;
    } else {
      FindTail(Child(node, route[0]).value, route[1..], n - 1);
      assert route[..n][0] == route[0] && route[..n][1..] == route[1..][..n - 1];
      assert route[1..][n - 1..] == route[n..];
    }
  }

  /** A weight other than zero is never lost. */
  lemma NonZeroWeightKept(t: Text, path: Path, dst: Node, src: Node, route: Route)
    requires Proper(t, src) && IsWeightAt(src, route) && !IsZero(Find(src, route).value)
    ensures Find(MergeNode(t, path, dst, src), route) == Find(src, route)
  {
    hide MergeNode, Proper, IsZero, Clear, Hollow, Descend;
    WeightKept(t, path, dst, src, route);
    var d := Descend(t, dst, src, route);
    if d.NewKey? && d.depth < |route| {
      FindTail(src, route, d.depth);
      assert route[d.depth..][|route| - d.depth - 1] == route[|route| - 1];
      HoldsNonZero(path + Names(route[..d.depth]), Find(src, route[..d.depth]).value, route[d.depth..]);
    }
  }

  /** A weight whose mapping was there before is never lost. */
  lemma WeightOfKnownParent(t: Text, path: Path, dst: Node, src: Node, route: Route)
    requires Proper(t, src) && IsWeightAt(src, route)
    requires var d := Descend(t, dst, src, route); d.NewKey? ==> d.depth == |route|
    ensures Find(MergeNode(t, path, dst, src), route) == Find(src, route)
  {
    hide MergeNode, Proper, Descend;
    WeightKept(t, path, dst, src, route);
  }

  // A generated provider list with one entry that has an empty key and an explicit zero weight.

  const BLANK: Node := Scalar("!!str", "")
  const ENTRY: Node := Mapping([Pair("api-key", BLANK), Pair("weight", Scalar("!!int", "0"))])
  const BASE_URL: Pair := Pair("base-url", Scalar("!!str", "u"))
  const ENTRIES: Pair := Pair("api-key-entries", Sequence([ENTRY]))
  const MODELS: Pair := Pair("models", Sequence([]))
  const PROVIDER: Node := Mapping([Pair("name", BLANK), BASE_URL, ENTRIES, MODELS])
  const PROVIDERS: Pair := Pair("openai-compatibility", Sequence([PROVIDER]))

  lemma PrunedZeroPair(path: Path, pairs: seq<Pair>)
    requires pairs != [] && IsZero(pairs[0].value) && !IsWeight(path + [pairs[0].key], pairs[0].value)
    ensures PrunePairs(path, pairs) == PrunePairs(path, pairs[1..])
  {
    hide IsZero, Prune, IsNonZeroDefault;
  }

  lemma PrunedKeptPair(path: Path, pairs: seq<Pair>)
    requires pairs != []
    requires var child, v := path + [pairs[0].key], pairs[0].value;
      !IsKnownDefault(child, v) && Prune(child, v) == v && !IsEmptyCollection(v)
    ensures PrunePairs(path, pairs) == [pairs[0]] + PrunePairs(path, pairs[1..])
  {
    hide IsKnownDefault, Prune, IsEmptyCollection;
  }

  lemma EntriesAreZero()
    ensures IsZero(BLANK) && IsZero(ENTRIES.value) && IsZero(MODELS.value)
  {
    assert IsZero(ENTRY.pairs[0].value) && IsZero(ENTRY.pairs[1].value);
    assert IsZero(ENTRY);
  }

  lemma ProviderPruned(path: Path)
    ensures Prune(path, PROVIDER) == Mapping([BASE_URL])
  {
    hide IsZero, IsKnownDefault, PrunePairs;
    EntriesAreZero();
    var pairs := PROVIDER.pairs;
    assert pairs[1..] == [BASE_URL, ENTRIES, MODELS];
    assert [BASE_URL, ENTRIES, MODELS][1..] == [ENTRIES, MODELS];
    assert [ENTRIES, MODELS][1..] == [MODELS] && [MODELS][1..] == [];
    PrunedZeroPair(path, pairs);
    BaseUrlIsKept(path + ["base-url"]);
    PrunedKeptPair(path, [BASE_URL, ENTRIES, MODELS]);
    PrunedZeroPair(path, [ENTRIES, MODELS]);
    PrunedZeroPair(path, [MODELS]);
    NothingPruned(path);
    assert [BASE_URL] + [] == [BASE_URL];
  }

  lemma NothingPruned(path: Path)
    ensures PrunePairs(path, []) == [] && PruneItems(path, []) == []
  {
  }

  lemma NotZeroList(node: Node, pair: Pair)
    requires node == Sequence([Mapping([pair])]) && !IsZero(pair.value)
    ensures !IsZero(node)
  {
    assert !IsZero(node.items[0].pairs[0].value);
    assert !IsZero(node.items[0]);
  }

  lemma PrunedOne(path: Path, item: Node)
    ensures Prune(path, Sequence([item])) == Sequence([Prune(path, item)])
  {
    NothingPruned(path);
    assert [item][1..] == [];
  }

  /** Saved into a file without the list, the provider is written and its entry with the explicit weight is not. */
  lemma ZeroWeightLost(t: Text)
    ensures MergePairs(t, [], [], [PROVIDERS]) == [Pair("openai-compatibility", Sequence([Mapping([BASE_URL])]))]
  {
    hide IsZero, Prune, IsNonZeroDefault;
    var path: Path := ["openai-compatibility"];
    assert [] + path == path && [PROVIDERS][1..] == [];
    ProviderPruned(path);
    PrunedOne(path, PROVIDER);
    ShortIsNoDefault(path, BASE_URL.value);
    NotZeroList(Sequence([Mapping([BASE_URL])]), BASE_URL);
    DefaultCollection(path, Sequence([Mapping([BASE_URL])]));
  }

  lemma BaseUrlIsKept(path: Path)
    requires path != [] && path[|path| - 1] == "base-url"
    ensures !IsKnownDefault(path, BASE_URL.value) && Prune(path, BASE_URL.value) == BASE_URL.value
  {
    hide IsNonZeroDefault, IsZero;
    ShortIsNoDefault(path, BASE_URL.value);
  }

  lemma ShortIsNoDefault(path: Path, node: Node)
    requires node.Scalar? && node.tag == "!!str" && |node.value| == 1
    ensures !IsNonZeroDefault(path, node) && !IsZero(node)
  {
    hide Dotted;
    assert |"127.0.0.1:8316"| > 1 && |"plugins"| > 1 && |"round-robin"| > 1;
    assert |"https://github.com/PandaSt0rm/aiproxy"| > 1;
  }
}
