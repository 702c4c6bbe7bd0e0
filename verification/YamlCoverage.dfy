/**
 What a merge guarantees: a tree merged with itself is unchanged, the result covers the generated tree, and existing
 keys stay where they are.
 */
module YamlCoverage {
  import opened Options
  import opened YamlTree
  import opened YamlMerge

  // ---------- Self merge ----------

  lemma {:induction false} EqualToItself(t: Text, a: Node)
    ensures StructurallyEqual(t, a, a)
    decreases a
  {
    match a
    case Scalar(_, _) =>
    case Mapping(pairs) =>
      forall i | 0 <= i < |pairs| ensures StructurallyEqual(t, pairs[i].value, pairs[i].value) {
        EqualToItself(t, pairs[i].value);
      }
    case Sequence(items) =>
      forall i | 0 <= i < |items| ensures StructurallyEqual(t, items[i], items[i]) {
        EqualToItself(t, items[i]);
      }
  }

  predicate UsedUpTo(used: seq<bool>, n: nat) {
    n <= |used| && forall i :: 0 <= i < |used| ==> (used[i] <==> i < n)
  }

  lemma MatchesItself(t: Text, items: seq<Node>, used: seq<bool>, n: nat)
    requires |used| == |items| && UsedUpTo(used, n) && n < |items|
    ensures MatchIndex(t, items, used, items[n]) == n
  {
    hide StructurallyEqual, Identity, FirstFrom;
    EqualToItself(t, items[n]);
    var byIdentity := FirstFrom(t, items, used, items[n], true, 0);
    if byIdentity >= 0 {
      assert SameIdentity(t, items[n], items[byIdentity]) ==> SameIdentity(t, items[n], items[n]);
    }
  }

  predicate Counts(slots: seq<int>, n: int) {
    forall i :: 0 <= i < |slots| ==> slots[i] == n + i
  }

  lemma ConsCounts(slots: seq<int>, n: int)
    requires Counts(slots, n + 1)
    ensures Counts([n] + slots, n)
  {
    assert forall i :: 1 <= i < |slots| + 1 ==> ([n] + slots)[i] == slots[i - 1];
  }

  /** Matched against itself, every element of a sequence takes over itself. */
  lemma {:induction false} AssignItself(t: Text, items: seq<Node>, used: seq<bool>, n: nat)
    requires |used| == |items| && UsedUpTo(used, n)
    ensures Counts(Assign(t, items, used, items[n..]), n)
    decreases |items| - n
  {
    hide MatchIndex;
    if n < |items| {
      MatchesItself(t, items, used, n);
      AssignItself(t, items, Mark(used, n), n + 1);
      assert items[n..][0] == items[n] && items[n..][1..] == items[n + 1..];
      ConsCounts(Assign(t, items, Mark(used, n), items[n + 1..]), n);
    }
  }

  lemma {:induction false} DropNothing(t: Text, pairs: seq<Pair>, generated: seq<Pair>)
    requires forall i :: 0 <= i < |pairs| ==> Kept(t, pairs[i].key, generated)
    ensures DropMissing(t, pairs, generated) == pairs
  {
    if pairs != [] {
      DropNothing(t, pairs[1..], generated);
    }
  }

  lemma FoundAt(pairs: seq<Pair>, i: nat)
    requires Distinct(pairs) && i < |pairs|
    ensures FindKey(pairs, pairs[i].key) == i
    ensures Lookup(pairs, pairs[i].key) == Some(pairs[i].value)
  {
  }

  /** Merging a document with unique, non-blank keys into an identical copy leaves it unchanged. */
  lemma {:induction false} SelfMerge(t: Text, path: Path, node: Node)
    requires Proper(t, node)
    ensures MergeNode(t, path, node, node) == node
    decreases node, 2
  {
    hide Assign;
    match node
    case Scalar(_, _) =>
    case Mapping(pairs) =>
      SelfMergePairs(t, path, pairs, 0);
      assert pairs[0..] == pairs;
    case Sequence(items) =>
      var none := NoneUsed(|items|);
      assert UsedUpTo(none, 0);
      AssignItself(t, items, none, 0);
      assert items[0..] == items;
      var slots := Assign(t, items, none, items);
      assert Counts(slots, 0);
      SelfMergeItems(t, path, items, slots, 0);
      assert slots[0..] == slots;
  }

  lemma {:induction false} SelfMergePairs(t: Text, path: Path, pairs: seq<Pair>, n: nat)
    requires n <= |pairs| && Distinct(pairs) && forall i :: 0 <= i < |pairs| ==> Proper(t, pairs[i].value)
    ensures MergePairs(t, path, pairs, pairs[n..]) == pairs
    decreases pairs, 1, |pairs| - n
  {
    hide MergeNode;
    if n < |pairs| {
      FoundAt(pairs, n);
      SelfMerge(t, path + [pairs[n].key], pairs[n].value);
      assert pairs[n..][0] == pairs[n] && pairs[n..][1..] == pairs[n + 1..];
      assert MergePair(t, path, pairs, pairs[n]) == pairs;
      SelfMergePairs(t, path, pairs, n + 1);
    }
  }

  lemma {:induction false} SelfMergeItems(t: Text, path: Path, items: seq<Node>, slots: seq<int>, n: nat)
    requires n <= |items| == |slots| && forall i :: 0 <= i < |items| ==> slots[i] == i && Proper(t, items[i])
    ensures MergeItems(t, path, items, slots[n..], items[n..]) == items[n..]
    decreases items, 1, |items| - n
  {
    hide MergeItem;
    if n < |items| {
      SelfMergeItem(t, path, items[n]);
      SelfMergeItems(t, path, items, slots, n + 1);
      assert items[n..][0] == items[n] && items[n..][1..] == items[n + 1..];
      assert slots[n..][0] == n && slots[n..][1..] == slots[n + 1..];
    }
  }

  lemma {:induction false} SelfMergeItem(t: Text, path: Path, item: Node)
    requires Proper(t, item)
    ensures MergeItem(t, path, Some(item), item) == item
    decreases item, 3
  {
    hide MergeNode;
    SelfMerge(t, path, item);
    if item.Mapping? {
      DropNothing(t, item.pairs, item.pairs);
    }
  }

  // ---------- Looking a key up in the result ----------

  /** What a merged mapping holds under a key. */
  function MergedValue(t: Text, path: Path, dst: seq<Pair>, src: seq<Pair>, key: string): Option<Node> {
    match Lookup(src, key)
    case None => Lookup(dst, key)
    case Some(v) =>
      var child := path + [key];
      match Lookup(dst, key)
      case Some(d) => Some(MergeNode(t, child, d, v))
      case None => if IsKnownDefault(child, Prune(child, v)) then None else Some(Prune(child, v))
  }

  lemma LookupRest(pairs: seq<Pair>, key: string)
    requires pairs != []
    ensures Lookup(pairs, key) == if pairs[0].key == key then Some(pairs[0].value) else Lookup(pairs[1..], key)
  {
  }

  lemma LookupUpdated(pairs: seq<Pair>, i: nat, value: Node, key: string)
    requires i < |pairs| && FindKey(pairs, pairs[i].key) == i
    ensures Lookup(pairs[i := Pair(pairs[i].key, value)], key) ==
      if key == pairs[i].key then Some(value) else Lookup(pairs, key)
  {
    var r := pairs[i := Pair(pairs[i].key, value)];
    assert forall j :: 0 <= j < |pairs| ==> r[j].key == pairs[j].key;
    SameFind(pairs, r, key);
  }

  lemma SameFind(a: seq<Pair>, b: seq<Pair>, key: string)
    requires |a| == |b| && forall j :: 0 <= j < |a| ==> a[j].key == b[j].key
    ensures FindKey(a, key) == FindKey(b, key)
  {
  }

  lemma LookupAppended(pairs: seq<Pair>, pair: Pair, key: string)
    requires !HasKey(pairs, pair.key)
    ensures Lookup(pairs + [pair], key) == if key == pair.key then Some(pair.value) else Lookup(pairs, key)
  {
    var r := pairs + [pair];
    assert r[|pairs|] == pair && forall j :: 0 <= j < |pairs| ==> r[j] == pairs[j];
  }

  lemma LookupMergedPair(t: Text, path: Path, dst: seq<Pair>, pair: Pair, key: string)
    ensures Lookup(MergePair(t, path, dst, pair), key) ==
      if key == pair.key then MergedValue(t, path, dst, [pair], key) else Lookup(dst, key)
  {
    hide MergeNode, Prune, IsKnownDefault;
    LookupRest([pair], pair.key);
    var i := FindKey(dst, pair.key);
    if i >= 0 {
      LookupUpdated(dst, i, MergeNode(t, path + [pair.key], dst[i].value, pair.value), key);
    } else {
      LookupAppended(dst, Pair(pair.key, Prune(path + [pair.key], pair.value)), key);
    }
  }

  lemma {:induction false} LookupMerged(t: Text, path: Path, dst: seq<Pair>, src: seq<Pair>, key: string)
    requires Distinct(src)
    ensures Lookup(MergePairs(t, path, dst, src), key) == MergedValue(t, path, dst, src, key)
    decreases src
  {
    hide MergeNode, Prune, IsKnownDefault, MergePair;
    if src != [] {
      LookupMerged(t, path, MergePair(t, path, dst, src[0]), src[1..], key);
      LookupMergedPair(t, path, dst, src[0], key);
      LookupRest(src, key);
      LookupRest([src[0]], key);
      assert Distinct(src[1..]);
      assert forall i :: 1 <= i < |src| ==> src[1..][i - 1] == src[i];
      assert !HasKey(src[1..], src[0].key);
    }
  }

  // ---------- Coverage ----------

  function Items(node: Option<Node>): seq<Node> {
    if node.Some? && node.value.Sequence? then node.value.items else []
  }

  /**
   `result` says everything that the generated tree `src` says: each generated scalar is there, each generated key is
   there unless it was not there before and holds nothing but defaults, and each sequence has the generated length
   (a null facing an empty sequence may stay). `was` is what stood in this place before.
   */
  ghost predicate Covers(t: Text, path: Path, was: Option<Node>, result: Node, src: Node)
    decreases src
  {
    match src
    case Scalar(_, _) => result == src
    case Mapping(pairs) =>
      result.Mapping? && forall i :: 0 <= i < |pairs| ==>
        var key := pairs[i].key;
        var now := Lookup(result.pairs, key);
        if now.Some? then Covers(t, path + [key], Lookup(Pairs(was), key), now.value, pairs[i].value)
        else Lookup(Pairs(was), key).None? && OnlyDefaults(path + [key], pairs[i].value)
    case Sequence(items) =>
      || (items == [] && result.Scalar? && result.tag == "!!null" && was == Some(result))
      || (result.Sequence? && |result.items| == |items| &&
          var original := Items(was);
          var slots := Assign(t, original, NoneUsed(|original|), items);
          forall i :: 0 <= i < |items| ==> Covers(t, path, Taken(original, slots[i]), result.items[i], items[i]))
  }

  lemma {:induction false} CoversItself(t: Text, path: Path, was: Option<Node>, src: Node)
    requires Proper(t, src)
    ensures Covers(t, path, was, src, src)
    decreases src
  {
    hide Assign, OnlyDefaults;
    match src
    case Scalar(_, _) =>
    case Mapping(pairs) =>
      forall i | 0 <= i < |pairs| ensures Lookup(pairs, pairs[i].key) == Some(pairs[i].value) &&
        Covers(t, path + [pairs[i].key], Lookup(Pairs(was), pairs[i].key), pairs[i].value, pairs[i].value) {
        FoundAt(pairs, i);
        CoversItself(t, path + [pairs[i].key], Lookup(Pairs(was), pairs[i].key), pairs[i].value);
      }
    case Sequence(items) =>
      var original := Items(was);
      var slots := Assign(t, original, NoneUsed(|original|), items);
      forall i | 0 <= i < |items| ensures Covers(t, path, Taken(original, slots[i]), items[i], items[i]) {
        CoversItself(t, path, Taken(original, slots[i]), items[i]);
      }
  }

  lemma {:induction false} LookupPruned(path: Path, pairs: seq<Pair>, key: string)
    requires Distinct(pairs)
    ensures Lookup(PrunePairs(path, pairs), key) ==
      match Lookup(pairs, key)
      case None => None
      case Some(v) =>
        var child := path + [key];
        if IsKnownDefault(child, v) || IsEmptyCollection(Prune(child, v)) then None else Some(Prune(child, v))
    decreases pairs
  {
    hide Prune, IsKnownDefault, IsEmptyCollection;
    if pairs != [] {
      LookupPruned(path, pairs[1..], key);
      LookupRest(pairs, key);
      assert Distinct(pairs[1..]);
      assert forall i :: 1 <= i < |pairs| ==> pairs[1..][i - 1] == pairs[i];
      assert !HasKey(pairs[1..], pairs[0].key);
      var child := path + [pairs[0].key];
      var pruned := Pair(pairs[0].key, Prune(child, pairs[0].value));
      LookupRest([pruned] + PrunePairs(path, pairs[1..]), key);
    }
  }

  lemma {:induction false} PrunedItem(path: Path, items: seq<Node>, i: nat)
    requires i < |items|
    ensures PruneItems(path, items)[i] == Prune(path, items[i])
  {
    if i > 0 {
      PrunedItem(path, items[1..], i - 1);
    }
  }

  lemma {:induction false} CoversPruned(t: Text, path: Path, src: Node)
    requires Proper(t, src)
    ensures Covers(t, path, None, Prune(path, src), src)
    decreases src
  {
    hide Assign, OnlyDefaults, IsKnownDefault, IsEmptyCollection, IsZero, PrunePairs, PruneItems;
    match src
    case Scalar(_, _) =>
    case Mapping(pairs) =>
      var result := PrunePairs(path, pairs);
      forall i | 0 <= i < |pairs| ensures
        var now := Lookup(result, pairs[i].key);
        if now.Some? then Covers(t, path + [pairs[i].key], None, now.value, pairs[i].value)
        else OnlyDefaults(path + [pairs[i].key], pairs[i].value)
      {
        FoundAt(pairs, i);
        LookupPruned(path, pairs, pairs[i].key);
        PrunedChild(path + [pairs[i].key], pairs[i].value);
        CoversPruned(t, path + [pairs[i].key], pairs[i].value);
      }
      assert Lookup([], "").None?;
    case Sequence(items) =>
      var result := PruneItems(path, items);
      var slots := Assign(t, [], NoneUsed(0), items);
      forall i | 0 <= i < |items| ensures Covers(t, path, Taken([], slots[i]), result[i], items[i]) {
        PrunedItem(path, items, i);
        CoversPruned(t, path, items[i]);
      }
  }

  lemma {:induction false} LookupDropped(t: Text, pairs: seq<Pair>, generated: seq<Pair>, key: string)
    ensures Lookup(DropMissing(t, pairs, generated), key) ==
      if Kept(t, key, generated) then Lookup(pairs, key) else None
    decreases pairs
  {
    hide Kept;
    if pairs != [] {
      LookupDropped(t, pairs[1..], generated, key);
      LookupRest(pairs, key);
      var rest := DropMissing(t, pairs[1..], generated);
      LookupRest([pairs[0]] + rest, key);
      assert [] + rest == rest;
    }
  }

  /**
   What is kept of an element: the pairs whose trimmed key is not blank and is the trimmed key of a generated pair.
   */
  lemma {:induction false} DroppedExactly(t: Text, pairs: seq<Pair>, generated: seq<Pair>, pair: Pair)
    ensures pair in DropMissing(t, pairs, generated) <==>
      && pair in pairs && t.trim(pair.key) != ""
      && exists g :: g in generated && t.trim(g.key) == t.trim(pair.key)
    decreases |pairs|
  {
    if pairs != [] {
      DroppedExactly(t, pairs[1..], generated, pair);
      assert pairs == [pairs[0]] + pairs[1..];
    }
  }

  /** Dropping the keys that were not generated keeps the coverage. */
  lemma CoversDropped(t: Text, path: Path, was: Option<Node>, result: Node, src: Node)
    requires Proper(t, src) && src.Mapping? && Covers(t, path, was, result, src)
    ensures Covers(t, path, was, Mapping(DropMissing(t, result.pairs, src.pairs)), src)
  {
    hide OnlyDefaults;
    forall i | 0 <= i < |src.pairs| ensures
      Lookup(DropMissing(t, result.pairs, src.pairs), src.pairs[i].key) == Lookup(result.pairs, src.pairs[i].key)
    {
      LookupDropped(t, result.pairs, src.pairs, src.pairs[i].key);
    }
  }

  lemma NotAdded(path: Path, node: Node)
    ensures IsKnownDefault(path, Prune(path, node)) <==> OnlyDefaults(path, node) && !IsWeight(path, node)
  {
    PrunedZero(path, node);
  }

  /** Merging covers the generated tree. */
  lemma {:induction false} MergeCovers(t: Text, path: Path, dst: Node, src: Node)
    requires Proper(t, src)
    ensures Covers(t, path, Some(dst), MergeNode(t, path, dst, src), src)
    decreases src, 2
  {
    hide Assign, OnlyDefaults, IsKnownDefault, MergePairs, Prune;
    match src
    case Scalar(_, _) =>
    case Mapping(pairs) =>
      if dst.Mapping? {
        var result := MergePairs(t, path, dst.pairs, pairs);
        forall i | 0 <= i < |pairs| ensures CoveredAt(t, path, dst.pairs, result, pairs[i]) {
          MergeCoversKey(t, path, dst.pairs, pairs, i);
        }
      } else {
        SelfMergePairs(t, path, pairs, 0);
        assert pairs[0..] == pairs;
        CoversItself(t, path, Some(dst), src);
      }
    case Sequence(items) =>
      var original := Items(Some(dst));
      var slots := Assign(t, original, NoneUsed(|original|), items);
      var result := MergeItems(t, path, original, slots, items);
      forall i | 0 <= i < |items| ensures Covers(t, path, Taken(original, slots[i]), result[i], items[i]) {
        MergedItem(t, path, original, slots, items, i);
        MergeCoversItem(t, path, Taken(original, slots[i]), items[i]);
      }
  }

  ghost predicate CoveredAt(t: Text, path: Path, was: seq<Pair>, result: seq<Pair>, pair: Pair) {
    var now := Lookup(result, pair.key);
    if now.Some? then Covers(t, path + [pair.key], Lookup(was, pair.key), now.value, pair.value)
    else Lookup(was, pair.key).None? && OnlyDefaults(path + [pair.key], pair.value)
  }

  lemma {:induction false} MergeCoversKey(t: Text, path: Path, dst: seq<Pair>, src: seq<Pair>, i: nat)
    requires Proper(t, Mapping(src)) && i < |src|
    ensures CoveredAt(t, path, dst, MergePairs(t, path, dst, src), src[i])
    decreases src, 1
  {
    hide Covers, MergePairs, MergeNode, Prune, OnlyDefaults, IsKnownDefault;
    var child, v := path + [src[i].key], src[i].value;
    FoundAt(src, i);
    LookupMerged(t, path, dst, src, src[i].key);
    var was := Lookup(dst, src[i].key);
    if was.Some? {
      MergeCovers(t, child, was.value, v);
    } else {
      NotAdded(child, v);
      CoversPruned(t, child, v);
    }
  }

  lemma {:induction false} MergeCoversItem(t: Text, path: Path, dst: Option<Node>, src: Node)
    requires Proper(t, src)
    ensures Covers(t, path, dst, MergeItem(t, path, dst, src), src)
    decreases src, 3
  {
    hide Covers, MergeNode, DropMissing;
    match dst
    case None => CoversItself(t, path, None, src);
    case Some(d) =>
      MergeCovers(t, path, d, src);
      var merged := MergeNode(t, path, d, src);
      if merged.Mapping? && src.Mapping? {
        CoversDropped(t, path, dst, merged, src);
      }
  }

  // ---------- What stays in place ----------

  /**
   Outside sequences, existing keys keep their order in front of new ones, keys that were not generated keep their
   values, and nothing appears that was neither there nor generated.
   */
  ghost predicate StaysInPlace(was: Node, result: Node, src: Node)
    decreases src
  {
    was.Mapping? && src.Mapping? ==>
      && result.Mapping?
      && Keys(was.pairs) <= Keys(result.pairs)
      && (forall key | !HasKey(src.pairs, key) :: Lookup(result.pairs, key) == Lookup(was.pairs, key))
      && (forall i | 0 <= i < |src.pairs| && HasKey(was.pairs, src.pairs[i].key) ::
            var key := src.pairs[i].key;
            var before, now := Lookup(was.pairs, key), Lookup(result.pairs, key);
            now.Some? && StaysInPlace(before.value, now.value, src.pairs[i].value))
      && (Distinct(was.pairs) ==> Distinct(result.pairs))
  }

  lemma KeysOf(a: seq<Pair>, b: seq<Pair>)
    requires |a| <= |b| && forall i :: 0 <= i < |a| ==> a[i].key == b[i].key
    ensures Keys(a) <= Keys(b)
  {
  }

  lemma {:induction false} KeysMerged(t: Text, path: Path, dst: seq<Pair>, src: seq<Pair>)
    ensures Keys(dst) <= Keys(MergePairs(t, path, dst, src))
    ensures Distinct(dst) ==> Distinct(MergePairs(t, path, dst, src))
    decreases src
  {
    hide MergeNode, Prune, IsKnownDefault;
    if src != [] {
      var next := MergePair(t, path, dst, src[0]);
      KeysOf(dst, next);
      KeysMerged(t, path, next, src[1..]);
    }
  }

  lemma {:induction false} MergeStaysInPlace(t: Text, path: Path, dst: Node, src: Node)
    requires Proper(t, src)
    ensures StaysInPlace(dst, MergeNode(t, path, dst, src), src)
    decreases src
  {
    hide MergePairs, Prune, IsKnownDefault, MergeItems, Assign, Keys;
    if dst.Mapping? && src.Mapping? {
      KeysMerged(t, path, dst.pairs, src.pairs);
      var result := MergePairs(t, path, dst.pairs, src.pairs);
      forall key | !HasKey(src.pairs, key) ensures Lookup(result, key) == Lookup(dst.pairs, key) {
        LookupMerged(t, path, dst.pairs, src.pairs, key);
      }
      forall i | 0 <= i < |src.pairs| && HasKey(dst.pairs, src.pairs[i].key) ensures
        var key := src.pairs[i].key;
        Lookup(result, key).Some? &&
        StaysInPlace(Lookup(dst.pairs, key).value, Lookup(result, key).value, src.pairs[i].value)
      {
        var key := src.pairs[i].key;
        FoundAt(src.pairs, i);
        LookupMerged(t, path, dst.pairs, src.pairs, key);
        MergeStaysInPlace(t, path + [key], Lookup(dst.pairs, key).value, src.pairs[i].value);
      }
    }
  }

  /** An explicit null facing an empty generated sequence stays; any other scalar there becomes the sequence. */
  lemma NullStays(t: Text, path: Path, tag: string, value: string)
    ensures MergeNode(t, path, Scalar(tag, value), Sequence([])) ==
      if tag == "!!null" then Scalar(tag, value) else Sequence([])
  {
  }

  // ---------- New keys ----------

  /** A generated key that was not there is added exactly when it says something new or is an explicit weight. */
  lemma KeyAdded(t: Text, path: Path, dst: seq<Pair>, src: seq<Pair>, i: nat)
    requires Proper(t, Mapping(src)) && i < |src| && !HasKey(dst, src[i].key)
    ensures var child := path + [src[i].key];
      HasKey(MergePairs(t, path, dst, src), src[i].key) <==>
        !OnlyDefaults(child, src[i].value) || IsWeight(child, src[i].value)
  {
    hide MergePairs, MergeNode, Prune, OnlyDefaults, IsKnownDefault;
    FoundAt(src, i);
    LookupMerged(t, path, dst, src, src[i].key);
    NotAdded(path + [src[i].key], src[i].value);
  }
}
