/**
 Merging a generated configuration tree into the tree of the existing file: existing keys keep their place, new keys
 are added only if they say something, and sequence elements are matched by identity before they are merged.
 */
module YamlMerge {
  import opened Options
  import opened YamlTree

  // ---------- Matching sequence elements ----------

  const IDENTITY_KEYS: seq<string> :=
    ["id", "name", "alias", "api-key", "api_key", "apikey", "key", "provider", "model"]

  /** The trimmed value of the first scalar under a key, compared without regard to case. */
  function ScalarUnder(t: Text, pairs: seq<Pair>, key: string): string {
    if pairs == [] then ""
    else if pairs[0].value.Scalar? && t.lower(t.trim(pairs[0].key)) == t.lower(key) then t.trim(pairs[0].value.value)
    else ScalarUnder(t, pairs[1..], key)
  }

  function IdentityUnder(t: Text, pairs: seq<Pair>, keys: seq<string>): string {
    if keys == [] then ""
    else
      var v := ScalarUnder(t, pairs, keys[0]);
      if v != "" then keys[0] + "=" + v else IdentityUnder(t, pairs, keys[1..])
  }

  function FirstScalar(t: Text, pairs: seq<Pair>): string {
    if pairs == [] then ""
    else if pairs[0].value.Scalar? && t.trim(pairs[0].value.value) != ""
    then t.lower(t.trim(pairs[0].key)) + "=" + t.trim(pairs[0].value.value)
    else FirstScalar(t, pairs[1..])
  }

  function Identity(t: Text, pairs: seq<Pair>): string {
    var id := IdentityUnder(t, pairs, IDENTITY_KEYS);
    if id != "" then id else FirstScalar(t, pairs)
  }

  predicate StructurallyEqual(t: Text, a: Node, b: Node)
    decreases a
  {
    match a
    case Scalar(_, value) => b.Scalar? && t.trim(value) == t.trim(b.value)
    case Mapping(pairs) =>
      b.Mapping? && |pairs| == |b.pairs| &&
      forall i :: 0 <= i < |pairs| ==>
        t.trim(pairs[i].key) == t.trim(b.pairs[i].key) && StructurallyEqual(t, pairs[i].value, b.pairs[i].value)
    case Sequence(items) =>
      b.Sequence? && |items| == |b.items| && forall i :: 0 <= i < |items| ==> StructurallyEqual(t, items[i], b.items[i])
  }

  predicate SameIdentity(t: Text, target: Node, candidate: Node) {
    match target
    case Mapping(pairs) =>
      candidate.Mapping? && Identity(t, pairs) != "" && Identity(t, candidate.pairs) == Identity(t, pairs)
    case Scalar(_, value) => candidate.Scalar? && t.trim(value) != "" && t.trim(candidate.value) == t.trim(value)
    case Sequence(_) => false
  }

  predicate Matching(t: Text, target: Node, candidate: Node, byIdentity: bool) {
    if byIdentity then SameIdentity(t, target, candidate) else StructurallyEqual(t, candidate, target)
  }

  /** `r` is the first unused element that matches, or -1 if there is none. */
  predicate FirstUnused(t: Text, original: seq<Node>, used: seq<bool>, target: Node, byIdentity: bool, r: int)
    requires |used| == |original|
  {
    && -1 <= r < |original|
    && (r >= 0 ==> !used[r] && Matching(t, target, original[r], byIdentity))
    && forall i :: 0 <= i < (if r >= 0 then r else |original|) ==>
      used[i] || !Matching(t, target, original[i], byIdentity)
  }

  method FindUnused(t: Text, original: seq<Node>, used: seq<bool>, target: Node, byIdentity: bool) returns (r: int)
    requires |used| == |original|
    ensures FirstUnused(t, original, used, target, byIdentity, r)
  {
    hide Matching;
    for i := 0 to |original|
      invariant forall j :: 0 <= j < i ==> used[j] || !Matching(t, target, original[j], byIdentity)
    {
      if !used[i] && Matching(t, target, original[i], byIdentity) {
        return i;
      }
    }
    return -1;
  }

  function FirstFrom(t: Text, original: seq<Node>, used: seq<bool>, target: Node, byIdentity: bool, from: nat): (r: int)
    requires |used| == |original| && from <= |original|
    requires forall i :: 0 <= i < from ==> used[i] || !Matching(t, target, original[i], byIdentity)
    ensures FirstUnused(t, original, used, target, byIdentity, r)
    decreases |original| - from
  {
    if from == |original| then -1
    else if !used[from] && Matching(t, target, original[from], byIdentity) then from
    else FirstFrom(t, original, used, target, byIdentity, from + 1)
  }

  /** The element to reuse: the first unused one of the same identity, else the first that is structurally equal. */
  function MatchIndex(t: Text, original: seq<Node>, used: seq<bool>, target: Node): (r: int)
    requires |used| == |original|
    ensures -1 <= r < |original| && (r >= 0 ==> !used[r])
  {
    var i := FirstFrom(t, original, used, target, true, 0);
    if i >= 0 then i else FirstFrom(t, original, used, target, false, 0)
  }

  lemma FirstUnusedUnique(t: Text, original: seq<Node>, used: seq<bool>, target: Node, byIdentity: bool, r: int,
                          r': int)
    requires |used| == |original|
    requires FirstUnused(t, original, used, target, byIdentity, r) &&
      FirstUnused(t, original, used, target, byIdentity, r')
    ensures r == r'
  {
  }

  method MatchSequenceElement(t: Text, original: seq<Node>, used: seq<bool>, target: Node) returns (r: int)
    requires |used| == |original|
    ensures r == MatchIndex(t, original, used, target)
    ensures var named := exists i :: 0 <= i < |original| && !used[i] && SameIdentity(t, target, original[i]);
      FirstUnused(t, original, used, target, named, r)
  {
    hide FirstFrom;
    r := FindUnused(t, original, used, target, true);
    FirstUnusedUnique(t, original, used, target, true, r, FirstFrom(t, original, used, target, true, 0));
    if r >= 0 {
      return;
    }
    r := FindUnused(t, original, used, target, false);
    FirstUnusedUnique(t, original, used, target, false, r, FirstFrom(t, original, used, target, false, 0));
  }

  function Mark(used: seq<bool>, i: int): (r: seq<bool>)
    requires -1 <= i < |used|
    ensures |r| == |used|
  {
    if i < 0 then used else used[i := true]
  }

  /** For each generated element, the existing element that it takes over, or -1. */
  function Assign(t: Text, original: seq<Node>, used: seq<bool>, items: seq<Node>): (slots: seq<int>)
    requires |used| == |original|
    ensures |slots| == |items|
    ensures forall i :: 0 <= i < |slots| ==> -1 <= slots[i] < |original| && (slots[i] >= 0 ==> !used[slots[i]])
    decreases items
  {
    if items == [] then []
    else
      var i := MatchIndex(t, original, used, items[0]);
      [i] + Assign(t, original, Mark(used, i), items[1..])
  }

  function NoneUsed(n: nat): (r: seq<bool>)
    ensures |r| == n && forall i :: 0 <= i < n ==> !r[i]
  {
    seq(n, i => false)
  }

  predicate Injective(slots: seq<int>) {
    forall i, j :: 0 <= i < j < |slots| && slots[i] >= 0 ==> slots[i] != slots[j]
  }

  lemma ConsInjective(first: int, rest: seq<int>)
    requires Injective(rest)
    requires forall i :: 0 <= i < |rest| ==> first < 0 || rest[i] != first
    ensures Injective([first] + rest)
  {
    assert forall i :: 1 <= i < |rest| + 1 ==> ([first] + rest)[i] == rest[i - 1];
  }

  /** No existing element is taken over twice. */
  lemma {:induction false} AssignInjective(t: Text, original: seq<Node>, used: seq<bool>, items: seq<Node>)
    requires |used| == |original|
    ensures Injective(Assign(t, original, used, items))
    decreases items
  {
    hide MatchIndex;
    if items != [] {
      var i := MatchIndex(t, original, used, items[0]);
      AssignInjective(t, original, Mark(used, i), items[1..]);
      ConsInjective(i, Assign(t, original, Mark(used, i), items[1..]));
    }
  }

  method ReorderSequence(t: Text, original: seq<Node>, items: seq<Node>) returns (slots: seq<int>)
    ensures slots == Assign(t, original, NoneUsed(|original|), items)
  {
    hide MatchIndex, NoneUsed;
    var used := NoneUsed(|original|);
    ghost var start := used;
    slots := [];
    for i := 0 to |items|
      invariant |used| == |original|
      invariant Assign(t, original, start, items) == slots + Assign(t, original, used, items[i..])
    {
      var r := MatchSequenceElement(t, original, used, items[i]);
      assert items[i..][0] == items[i] && items[i..][1..] == items[i + 1..];
      assert slots + ([r] + Assign(t, original, Mark(used, r), items[i + 1..]))
          == (slots + [r]) + Assign(t, original, Mark(used, r), items[i + 1..]);
      slots := slots + [r];
      used := Mark(used, r);
    }
    assert items[|items|..] == [];
  }

  // ---------- The merge ----------

  /** Keeps the pairs whose trimmed key is a trimmed key of the generated mapping. */
  predicate Kept(t: Text, key: string, generated: seq<Pair>) {
    t.trim(key) != "" && exists i :: 0 <= i < |generated| && t.trim(generated[i].key) == t.trim(key)
  }

  function DropMissing(t: Text, pairs: seq<Pair>, generated: seq<Pair>): seq<Pair> {
    if pairs == [] then []
    else (if Kept(t, pairs[0].key, generated) then [pairs[0]] else []) + DropMissing(t, pairs[1..], generated)
  }

  function MergeNode(t: Text, path: Path, dst: Node, src: Node): Node
    decreases src, 2
  {
    match src
    case Scalar(_, _) => src
    case Mapping(pairs) => Mapping(MergePairs(t, path, if dst.Mapping? then dst.pairs else pairs, pairs))
    case Sequence(items) =>
      if dst.Scalar? && dst.tag == "!!null" && items == [] then dst
      else
        var original := if dst.Sequence? then dst.items else [];
        Sequence(MergeItems(t, path, original, Assign(t, original, NoneUsed(|original|), items), items))
  }

  function MergePairs(t: Text, path: Path, dst: seq<Pair>, src: seq<Pair>): seq<Pair>
    decreases src, 1
  {
    if src == [] then dst else MergePairs(t, path, MergePair(t, path, dst, src[0]), src[1..])
  }

  function MergePair(t: Text, path: Path, dst: seq<Pair>, pair: Pair): seq<Pair>
    decreases pair, 0
  {
    var i := FindKey(dst, pair.key);
    var child := path + [pair.key];
    if i >= 0 then dst[i := Pair(pair.key, MergeNode(t, child, dst[i].value, pair.value))]
    else
      var candidate := Prune(child, pair.value);
      if IsKnownDefault(child, candidate) then dst else dst + [Pair(pair.key, candidate)]
  }

  function Taken(original: seq<Node>, slot: int): Option<Node>
    requires -1 <= slot < |original|
  {
    if slot < 0 then None else Some(original[slot])
  }

  function MergeItems(t: Text, path: Path, original: seq<Node>, slots: seq<int>, items: seq<Node>): (r: seq<Node>)
    requires |slots| == |items| && forall i :: 0 <= i < |slots| ==> -1 <= slots[i] < |original|
    ensures |r| == |items|
    decreases items, 1
  {
    if items == [] then []
    else
      [MergeItem(t, path, Taken(original, slots[0]), items[0])]
      + MergeItems(t, path, original, slots[1..], items[1..])
  }

  function MergeItem(t: Text, path: Path, dst: Option<Node>, src: Node): Node
    decreases src, 3
  {
    match dst
    case None => src
    case Some(d) =>
      var merged := MergeNode(t, path, d, src);
      if merged.Mapping? && src.Mapping? then Mapping(DropMissing(t, merged.pairs, src.pairs)) else merged
  }

  lemma {:induction false} MergedItem(t: Text, path: Path, original: seq<Node>, slots: seq<int>, items: seq<Node>,
                                      i: nat)
    requires |slots| == |items| && forall j :: 0 <= j < |slots| ==> -1 <= slots[j] < |original|
    requires i < |items|
    ensures MergeItems(t, path, original, slots, items)[i] == MergeItem(t, path, Taken(original, slots[i]), items[i])
    decreases items
  {
    hide MergeItem;
    if i > 0 {
      MergedItem(t, path, original, slots[1..], items[1..], i - 1);
    }
  }

  // ---------- The loops ----------

  /** Deletes the pairs of `dst` whose key was not generated. */
  method PruneMissingMapKeys(t: Text, dst: seq<Pair>, src: seq<Pair>) returns (content: seq<Pair>)
    ensures content == DropMissing(t, dst, src)
  {
    hide Kept;
    var keep := GeneratedKeys(t, src);
    content := dst;
    var i := 0;
    while i < |content|
      invariant i <= |content|
      invariant content[..i] + DropMissing(t, content[i..], src) == DropMissing(t, dst, src)
      decreases |content| - i
    {
      var first, rest := content[i], content[i + 1..];
      assert content[i..][0] == first && content[i..][1..] == rest;
      KeptByKey(t, first.key, src, keep);
      if t.trim(first.key) !in keep {
        assert [] + DropMissing(t, rest, src) == DropMissing(t, rest, src);
        content := content[..i] + rest;
        assert content[i..] == rest;
      } else {
        assert content[..i] + ([first] + DropMissing(t, rest, src)) == content[..i + 1] + DropMissing(t, rest, src);
        i := i + 1;
      }
    }
    assert content[i..] == [] && content[..i] == content;
  }

  method GeneratedKeys(t: Text, src: seq<Pair>) returns (keep: set<string>)
    ensures forall key :: key in keep <==> key != "" && exists i :: 0 <= i < |src| && t.trim(src[i].key) == key
  {
    keep := {};
    for n := 0 to |src|
      invariant forall key :: key in keep <==> key != "" && exists i :: 0 <= i < n && t.trim(src[i].key) == key
    {
      if t.trim(src[n].key) != "" {
        keep := keep + {t.trim(src[n].key)};
      }
    }
  }

  lemma KeptByKey(t: Text, key: string, src: seq<Pair>, keep: set<string>)
    requires forall k :: k in keep <==> k != "" && exists i :: 0 <= i < |src| && t.trim(src[i].key) == k
    ensures t.trim(key) in keep <==> Kept(t, key, src)
  {
  }

  method MergeMappingPreserve(t: Text, path: Path, dst: seq<Pair>, src: seq<Pair>) returns (content: seq<Pair>)
    ensures content == MergePairs(t, path, dst, src)
    decreases src, 1
  {
    hide MergeNode, Prune, IsKnownDefault;
    content := dst;
    for n := 0 to |src|
      invariant MergePairs(t, path, content, src[n..]) == MergePairs(t, path, dst, src)
    {
      assert src[n..][0] == src[n] && src[n..][1..] == src[n + 1..];
      var i := FindKey(content, src[n].key);
      var child := path + [src[n].key];
      if i >= 0 {
        var merged := MergeNodePreserve(t, child, content[i].value, src[n].value);
        content := content[i := Pair(content[i].key, merged)];
      } else {
        var candidate := PruneKnownDefaults(child, src[n].value);
        if !IsKnownDefault(child, candidate) {
          content := content + [Pair(src[n].key, candidate)];
        }
      }
    }
    assert src[|src|..] == [];
  }

  method MergeNodePreserve(t: Text, path: Path, dst: Node, src: Node) returns (r: Node)
    ensures r == MergeNode(t, path, dst, src)
    decreases src, 2
  {
    match src {
      case Scalar(_, _) => r := src;
      case Mapping(pairs) =>
        var content := MergeMappingPreserve(t, path, if dst.Mapping? then dst.pairs else pairs, pairs);
        r := Mapping(content);
      case Sequence(items) =>
        if dst.Scalar? && dst.tag == "!!null" && items == [] {
          return dst;
        }
        var content := MergeSequence(t, path, if dst.Sequence? then dst.items else [], items);
        r := Sequence(content);
    }
  }

  method MergeSequence(t: Text, path: Path, original: seq<Node>, items: seq<Node>) returns (r: seq<Node>)
    ensures r == MergeItems(t, path, original, Assign(t, original, NoneUsed(|original|), items), items)
    decreases items, 1
  {
    hide MergeItem, Assign, NoneUsed;
    ghost var slots := Assign(t, original, NoneUsed(|original|), items);
    var content: seq<Option<Node>> := seq(|original|, i requires 0 <= i < |original| => Some(original[i]));
    if original != [] && items != [] {
      var order := ReorderSequence(t, original, items);
      content := seq(|items|, i requires 0 <= i < |items| => Taken(original, order[i]));
    }
    ghost var ordered := content;
    var min := if |items| < |content| then |items| else |content|;
    assert forall j :: 0 <= j < min ==> ordered[j] == Taken(original, slots[j]);
    for i := 0 to min
      invariant |content| == |ordered|
      invariant forall j :: i <= j < |content| ==> content[j] == ordered[j]
      invariant forall j :: 0 <= j < i ==> content[j] == Some(MergeItem(t, path, ordered[j], items[j]))
    {
      var item := MergeElement(t, path, content[i], items[i]);
      content := content[i := Some(item)];
    }
    for i := min to |items|
      invariant |content| == if i < |ordered| then |ordered| else i
      invariant forall j :: 0 <= j < min ==> content[j] == Some(MergeItem(t, path, ordered[j], items[j]))
      invariant forall j :: min <= j < i ==> content[j] == Some(items[j])
    {
      content := content + [Some(items[i])];
    }
    content := content[..|items|];
    r := seq(|items|, i requires 0 <= i < |items| => if content[i].Some? then content[i].value else items[i]);
    forall j | 0 <= j < |items| ensures r[j] == MergeItems(t, path, original, slots, items)[j] {
      MergedItem(t, path, original, slots, items, j);
      NoneTaken(t, path, items[j]);
    }
  }

  lemma NoneTaken(t: Text, path: Path, item: Node)
    ensures MergeItem(t, path, None, item) == item
  {
  }

  method MergeElement(t: Text, path: Path, dst: Option<Node>, src: Node) returns (r: Node)
    ensures r == MergeItem(t, path, dst, src)
    decreases src, 3
  {
    if dst.None? {
      return src;
    }
    r := MergeNodePreserve(t, path, dst.value, src);
    if r.Mapping? && src.Mapping? {
      var content := PruneMissingMapKeys(t, r.pairs, src.pairs);
      r := Mapping(content);
    }
  }
}
