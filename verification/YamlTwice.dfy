/**
 Saving twice. Merging the same generated tree again changes nothing but sequence elements that the matching no longer
 pairs with themselves: a new element loses default values, and with them it may lose what it was recognized by.
 */
module YamlTwice {
  import opened Options
  import opened YamlTree
  import opened YamlMerge
  import opened YamlCoverage
  import opened YamlWeights

  /** Every key of an element was generated. */
  predicate GeneratedOnly(t: Text, result: Node, src: Node) {
    result.Mapping? && src.Mapping? ==> forall i :: 0 <= i < |result.pairs| ==> Kept(t, result.pairs[i].key, src.pairs)
  }

  /** Nothing of `src` is left to be written into `result`, element by element. */
  ghost predicate Settled(t: Text, path: Path, result: Node, src: Node)
    decreases src
  {
    match src
    case Scalar(_, _) => result == src
    case Mapping(pairs) =>
      result.Mapping? && forall i :: 0 <= i < |pairs| ==>
        var child, now := path + [pairs[i].key], Lookup(result.pairs, pairs[i].key);
        if now.Some? then Settled(t, child, now.value, pairs[i].value)
        else OnlyDefaults(child, pairs[i].value) && !IsWeight(child, pairs[i].value)
    case Sequence(items) =>
      || (items == [] && result.Scalar? && result.tag == "!!null")
      || (result.Sequence? && |result.items| == |items| && forall i :: 0 <= i < |items| ==>
            Settled(t, path, result.items[i], items[i]) && GeneratedOnly(t, result.items[i], items[i]))
  }

  // ---------- A merge settles ----------

  lemma OwnKeys(t: Text, src: Node)
    requires Proper(t, src)
    ensures GeneratedOnly(t, src, src)
  {
  }

  lemma {:induction false} SettledItself(t: Text, path: Path, src: Node)
    requires Proper(t, src)
    ensures Settled(t, path, src, src)
    decreases src
  {
    hide OnlyDefaults, GeneratedOnly;
    match src
    case Scalar(_, _) =>
    case Mapping(pairs) =>
      forall i | 0 <= i < |pairs| ensures Lookup(pairs, pairs[i].key) == Some(pairs[i].value) &&
        Settled(t, path + [pairs[i].key], pairs[i].value, pairs[i].value) {
        FoundAt(pairs, i);
        SettledItself(t, path + [pairs[i].key], pairs[i].value);
      }
    case Sequence(items) =>
      forall i | 0 <= i < |items| ensures Settled(t, path, items[i], items[i]) && GeneratedOnly(t, items[i], items[i]) {
        SettledItself(t, path, items[i]);
        OwnKeys(t, items[i]);
      }
  }

  lemma {:induction false} PrunedKeys(path: Path, pairs: seq<Pair>, i: nat)
    requires i < |PrunePairs(path, pairs)|
    ensures HasKey(pairs, PrunePairs(path, pairs)[i].key)
    decreases pairs
  {
    hide IsKnownDefault, IsEmptyCollection, Prune;
    var rest := PrunePairs(path, pairs[1..]);
    var all := PrunePairs(path, pairs);
    if all == rest {
      PrunedKeys(path, pairs[1..], i);
      HasKeyOfRest(pairs, rest[i].key);
    } else if i > 0 {
      assert all[i] == rest[i - 1];
      PrunedKeys(path, pairs[1..], i - 1);
      HasKeyOfRest(pairs, rest[i - 1].key);
    } else {
      assert all[0].key == pairs[0].key;
    }
  }

  lemma HasKeyOfRest(pairs: seq<Pair>, key: string)
    requires pairs != [] && HasKey(pairs[1..], key)
    ensures HasKey(pairs, key)
  {
    var i :| 0 <= i < |pairs[1..]| && pairs[1..][i].key == key;
    assert pairs[i + 1].key == key;
  }

  lemma PrunedGenerated(t: Text, path: Path, src: Node)
    requires Proper(t, src)
    ensures GeneratedOnly(t, Prune(path, src), src)
  {
    if src.Mapping? {
      var pruned := PrunePairs(path, src.pairs);
      forall i | 0 <= i < |pruned| ensures Kept(t, pruned[i].key, src.pairs) {
        PrunedKeys(path, src.pairs, i);
      }
    }
  }

  lemma DroppedIsNoWeight(path: Path, node: Node)
    requires IsKnownDefault(path, node) || IsEmptyCollection(Prune(path, node))
    ensures OnlyDefaults(path, node) && !IsWeight(path, node)
  {
    PrunedChild(path, node);
  }

  lemma {:induction false} SettledPruned(t: Text, path: Path, src: Node)
    requires Proper(t, src)
    ensures Settled(t, path, Prune(path, src), src)
    decreases src
  {
    hide OnlyDefaults, IsKnownDefault, IsEmptyCollection, IsZero, PrunePairs, PruneItems, GeneratedOnly;
    match src
    case Scalar(_, _) =>
    case Mapping(pairs) =>
      var result := PrunePairs(path, pairs);
      forall i | 0 <= i < |pairs| ensures
        var child, now := path + [pairs[i].key], Lookup(result, pairs[i].key);
        if now.Some? then Settled(t, child, now.value, pairs[i].value)
        else OnlyDefaults(child, pairs[i].value) && !IsWeight(child, pairs[i].value)
      {
        var child := path + [pairs[i].key];
        FoundAt(pairs, i);
        LookupPruned(path, pairs, pairs[i].key);
        if IsKnownDefault(child, pairs[i].value) || IsEmptyCollection(Prune(child, pairs[i].value)) {
          DroppedIsNoWeight(child, pairs[i].value);
        }
        SettledPruned(t, child, pairs[i].value);
      }
    case Sequence(items) =>
      var result := PruneItems(path, items);
      forall i | 0 <= i < |items|
        ensures Settled(t, path, result[i], items[i]) && GeneratedOnly(t, result[i], items[i])
      {
        PrunedItem(path, items, i);
        SettledPruned(t, path, items[i]);
        PrunedGenerated(t, path, items[i]);
      }
  }

  ghost predicate SettledAt(t: Text, path: Path, result: seq<Pair>, pair: Pair) {
    var child, now := path + [pair.key], Lookup(result, pair.key);
    if now.Some? then Settled(t, child, now.value, pair.value)
    else OnlyDefaults(child, pair.value) && !IsWeight(child, pair.value)
  }

  lemma {:induction false} MergeSettles(t: Text, path: Path, dst: Node, src: Node)
    requires Proper(t, src)
    ensures Settled(t, path, MergeNode(t, path, dst, src), src)
    decreases src, 2
  {
    hide Assign, OnlyDefaults, IsKnownDefault, MergePairs, Prune, GeneratedOnly;
    match src
    case Scalar(_, _) =>
    case Mapping(pairs) =>
      if dst.Mapping? {
        forall i | 0 <= i < |pairs| ensures SettledAt(t, path, MergePairs(t, path, dst.pairs, pairs), pairs[i]) {
          MergeSettlesKey(t, path, dst.pairs, pairs, i);
        }
      } else {
        SelfMergePairs(t, path, pairs, 0);
        assert pairs[0..] == pairs;
        SettledItself(t, path, src);
      }
    case Sequence(items) =>
      var original := Items(Some(dst));
      var slots := Assign(t, original, NoneUsed(|original|), items);
      var result := MergeItems(t, path, original, slots, items);
      forall i | 0 <= i < |items|
        ensures Settled(t, path, result[i], items[i]) && GeneratedOnly(t, result[i], items[i])
      {
        MergedItem(t, path, original, slots, items, i);
        MergeSettlesItem(t, path, Taken(original, slots[i]), items[i]);
      }
  }

  lemma {:induction false} MergeSettlesKey(t: Text, path: Path, dst: seq<Pair>, src: seq<Pair>, i: nat)
    requires Proper(t, Mapping(src)) && i < |src|
    ensures SettledAt(t, path, MergePairs(t, path, dst, src), src[i])
    decreases src, 1
  {
    hide Settled, MergePairs, MergeNode, Prune, OnlyDefaults, IsKnownDefault;
    var child, v := path + [src[i].key], src[i].value;
    FoundAt(src, i);
    LookupMerged(t, path, dst, src, src[i].key);
    var was := Lookup(dst, src[i].key);
    if was.Some? {
      MergeSettles(t, child, was.value, v);
    } else {
      NotAdded(child, v);
      SettledPruned(t, child, v);
    }
  }

  lemma {:induction false} DroppedKey(t: Text, pairs: seq<Pair>, generated: seq<Pair>, i: nat)
    requires i < |DropMissing(t, pairs, generated)|
    ensures Kept(t, DropMissing(t, pairs, generated)[i].key, generated)
    decreases |pairs|
  {
    hide Kept;
    var rest := DropMissing(t, pairs[1..], generated);
    var first := if Kept(t, pairs[0].key, generated) then [pairs[0]] else [];
    assert DropMissing(t, pairs, generated) == first + rest;
    if i >= |first| {
      assert (first + rest)[i] == rest[i - |first|];
      DroppedKey(t, pairs[1..], generated, i - |first|);
    }
  }

  lemma SettledDropped(t: Text, path: Path, result: Node, src: Node)
    requires Proper(t, src) && src.Mapping? && Settled(t, path, result, src)
    ensures var r := Mapping(DropMissing(t, result.pairs, src.pairs));
      Settled(t, path, r, src) && GeneratedOnly(t, r, src)
  {
    hide OnlyDefaults;
    forall i | 0 <= i < |DropMissing(t, result.pairs, src.pairs)|
      ensures Kept(t, DropMissing(t, result.pairs, src.pairs)[i].key, src.pairs)
    {
      DroppedKey(t, result.pairs, src.pairs, i);
    }
    forall i | 0 <= i < |src.pairs| ensures
      Lookup(DropMissing(t, result.pairs, src.pairs), src.pairs[i].key) == Lookup(result.pairs, src.pairs[i].key)
    {
      LookupDropped(t, result.pairs, src.pairs, src.pairs[i].key);
    }
  }

  lemma {:induction false} MergeSettlesItem(t: Text, path: Path, dst: Option<Node>, src: Node)
    requires Proper(t, src)
    ensures var r := MergeItem(t, path, dst, src); Settled(t, path, r, src) && GeneratedOnly(t, r, src)
    decreases src, 3
  {
    hide Settled, MergeNode, DropMissing;
    match dst
    case None =>
      SettledItself(t, path, src);
      OwnKeys(t, src);
    case Some(d) =>
      MergeSettles(t, path, d, src);
      var merged := MergeNode(t, path, d, src);
      if merged.Mapping? && src.Mapping? {
        SettledDropped(t, path, merged, src);
      }
  }

  // ---------- Merging into a settled tree ----------

  /**
   The matching pairs the elements of each sequence with themselves again; where it does not, what takes the place of
   an element must happen to be the same.
   */
  ghost predicate Rematches(t: Text, path: Path, result: Node, src: Node)
    decreases src
  {
    match src
    case Scalar(_, _) => true
    case Mapping(pairs) =>
      forall i :: 0 <= i < |pairs| ==>
        var now := Lookup(Pairs(Some(result)), pairs[i].key);
        now.Some? ==> Rematches(t, path + [pairs[i].key], now.value, pairs[i].value)
    case Sequence(items) =>
      result.Sequence? ==>
        var slots := Assign(t, result.items, NoneUsed(|result.items|), items);
        forall i :: 0 <= i < |items| && i < |result.items| ==>
          if slots[i] == i then Rematches(t, path, result.items[i], items[i])
          else MergeItem(t, path, Taken(result.items, slots[i]), items[i]) == result.items[i]
  }

  /** Merging the pair again changes nothing. */
  ghost predicate FixedAt(t: Text, path: Path, result: seq<Pair>, pair: Pair) {
    var child, now := path + [pair.key], Lookup(result, pair.key);
    if now.Some? then MergeNode(t, child, now.value, pair.value) == now.value
    else IsKnownDefault(child, Prune(child, pair.value))
  }

  lemma {:induction false} FixedPairs(t: Text, path: Path, result: seq<Pair>, src: seq<Pair>)
    requires forall i :: 0 <= i < |src| ==> FixedAt(t, path, result, src[i])
    ensures MergePairs(t, path, result, src) == result
    decreases src
  {
    hide MergeNode, Prune, IsKnownDefault;
    if src != [] {
      assert FixedAt(t, path, result, src[0]);
      assert MergePair(t, path, result, src[0]) == result;
      FixedPairs(t, path, result, src[1..]);
    }
  }

  lemma ChangedPair(t: Text, path: Path, result: seq<Pair>, src: seq<Pair>, i: nat)
    requires Distinct(src) && i < |src| && MergePairs(t, path, result, src) == result
    ensures FixedAt(t, path, result, src[i])
  {
    hide MergeNode, Prune, IsKnownDefault, MergePairs;
    FoundAt(src, i);
    LookupMerged(t, path, result, src, src[i].key);
  }

  /** A mapping is left alone exactly if every generated pair leaves it alone. */
  lemma FixedMapping(t: Text, path: Path, result: seq<Pair>, src: seq<Pair>)
    requires Distinct(src)
    ensures MergePairs(t, path, result, src) == result <==>
      forall i :: 0 <= i < |src| ==> FixedAt(t, path, result, src[i])
  {
    hide FixedAt, MergePairs;
    if forall i :: 0 <= i < |src| ==> FixedAt(t, path, result, src[i]) {
      FixedPairs(t, path, result, src);
    }
    if MergePairs(t, path, result, src) == result {
      forall i | 0 <= i < |src| ensures FixedAt(t, path, result, src[i]) {
        ChangedPair(t, path, result, src, i);
      }
    }
  }

  /** An element that holds only generated keys loses none of them when it is merged again. */
  lemma ElementKeepsKeys(t: Text, path: Path, result: Node, src: Node)
    requires Proper(t, src) && GeneratedOnly(t, result, src)
    ensures MergeItem(t, path, Some(result), src) == MergeNode(t, path, result, src)
  {
    hide MergePairs, DropMissing;
    if src.Mapping? {
      var dst := if result.Mapping? then result.pairs else src.pairs;
      var merged := MergePairs(t, path, dst, src.pairs);
      forall i | 0 <= i < |merged| ensures Kept(t, merged[i].key, src.pairs) {
        MergedKeyKept(t, path, dst, src, i);
      }
      DropNothing(t, merged, src.pairs);
    }
  }

  lemma MergedKeyKept(t: Text, path: Path, dst: seq<Pair>, src: Node, i: nat)
    requires Proper(t, src) && src.Mapping? && i < |MergePairs(t, path, dst, src.pairs)|
    requires forall j :: 0 <= j < |dst| ==> Kept(t, dst[j].key, src.pairs)
    ensures Kept(t, MergePairs(t, path, dst, src.pairs)[i].key, src.pairs)
  {
    hide MergePairs, MergeNode, Prune, IsKnownDefault;
    var key := MergePairs(t, path, dst, src.pairs)[i].key;
    LookupMerged(t, path, dst, src.pairs, key);
    assert HasKey(MergePairs(t, path, dst, src.pairs), key);
    if HasKey(src.pairs, key) {
      var j := FindKey(src.pairs, key);
      assert t.trim(src.pairs[j].key) == t.trim(key);
    } else {
      assert Kept(t, dst[FindKey(dst, key)].key, src.pairs);
    }
  }

  /** In a settled tree, merging again changes nothing exactly if all sequences match themselves again. */
  lemma {:induction false} FixedIffRematches(t: Text, path: Path, result: Node, src: Node)
    requires Proper(t, src) && Settled(t, path, result, src)
    ensures MergeNode(t, path, result, src) == result <==> Rematches(t, path, result, src)
    decreases src
  {
    hide MergePairs, MergeItems, Assign, MergeItem, OnlyDefaults, GeneratedOnly;
    match src
    case Scalar(_, _) =>
    case Mapping(pairs) =>
      FixedMapping(t, path, result.pairs, pairs);
      forall i | 0 <= i < |pairs| ensures
        var now := Lookup(result.pairs, pairs[i].key);
        FixedAt(t, path, result.pairs, pairs[i]) <==>
          (now.Some? ==> Rematches(t, path + [pairs[i].key], now.value, pairs[i].value))
      {
        var child, now := path + [pairs[i].key], Lookup(result.pairs, pairs[i].key);
        if now.Some? {
          FixedIffRematches(t, child, now.value, pairs[i].value);
        } else {
          NotAdded(child, pairs[i].value);
        }
      }
    case Sequence(items) =>
      if result.Sequence? {
        var slots := Assign(t, result.items, NoneUsed(|result.items|), items);
        var merged := MergeItems(t, path, result.items, slots, items);
        forall i | 0 <= i < |items| ensures merged[i] == result.items[i] <==>
          if slots[i] == i then Rematches(t, path, result.items[i], items[i])
          else MergeItem(t, path, Taken(result.items, slots[i]), items[i]) == result.items[i]
        {
          MergedItem(t, path, result.items, slots, items, i);
          if slots[i] == i {
            ElementKeepsKeys(t, path, result.items[i], items[i]);
            FixedIffRematches(t, path, result.items[i], items[i]);
          }
        }
      }
  }

  /** Saving twice gives what saving once gave exactly if every sequence that was written matches itself again. */
  lemma SavingTwice(t: Text, path: Path, dst: Node, src: Node)
    requires Proper(t, src)
    ensures var once := MergeNode(t, path, dst, src);
      MergeNode(t, path, once, src) == once <==> Rematches(t, path, once, src)
  {
    hide MergeNode, Settled, Rematches;
    MergeSettles(t, path, dst, src);
    FixedIffRematches(t, path, MergeNode(t, path, dst, src), src);
  }

  // ---------- When it does ----------

  /** A document whose sequences hold scalars only. */
  predicate ScalarLists(node: Node)
    decreases node
  {
    match node
    case Scalar(_, _) => true
    case Mapping(pairs) => forall i :: 0 <= i < |pairs| ==> ScalarLists(pairs[i].value)
    case Sequence(items) => forall i :: 0 <= i < |items| ==> items[i].Scalar?
  }

  lemma {:induction false} ScalarListsRematch(t: Text, path: Path, result: Node, src: Node)
    requires Proper(t, src) && ScalarLists(src) && Settled(t, path, result, src)
    ensures Rematches(t, path, result, src)
    decreases src
  {
    hide Assign, OnlyDefaults, GeneratedOnly, MergeItem;
    match src
    case Scalar(_, _) =>
    case Mapping(pairs) =>
      forall i | 0 <= i < |pairs| && Lookup(result.pairs, pairs[i].key).Some?
        ensures Rematches(t, path + [pairs[i].key], Lookup(result.pairs, pairs[i].key).value, pairs[i].value)
      {
        ScalarListsRematch(t, path + [pairs[i].key], Lookup(result.pairs, pairs[i].key).value, pairs[i].value);
      }
    case Sequence(items) =>
      if result.Sequence? {
        assert result.items == items;
        var none := NoneUsed(|items|);
        AssignItself(t, items, none, 0);
        assert items[0..] == items;
        assert Counts(Assign(t, items, none, items), 0);
      }
  }

  /** With lists of scalars only, saving twice never differs from saving once. */
  lemma ScalarListsSettle(t: Text, path: Path, dst: Node, src: Node)
    requires Proper(t, src) && ScalarLists(src)
    ensures var once := MergeNode(t, path, dst, src); MergeNode(t, path, once, src) == once
  {
    hide MergeNode, Settled, Rematches, ScalarLists;
    MergeSettles(t, path, dst, src);
    ScalarListsRematch(t, path, MergeNode(t, path, dst, src), src);
    SavingTwice(t, path, dst, src);
  }

  // A generated credential with an empty key and one header.

  const HEADERS: Pair := Pair("headers", Mapping([Pair("x", Scalar("!!str", "u"))]))
  const CREDENTIAL: Node := Mapping(
    [Pair("api-key", BLANK), Pair("base-url", BLANK), Pair("proxy-url", BLANK), MODELS, HEADERS])
  const SAVED: Node := Mapping([HEADERS])

  /** The first save drops the empty values; the second no longer recognizes the credential and writes them back. */
  lemma SecondSaveDiffers(t: Text)
    requires t.trim("") == ""
    ensures var file, list := Mapping([]), "claude-api-key";
      var src := Mapping([Pair(list, Sequence([CREDENTIAL]))]);
      var once := MergeNode(t, [], file, src);
      && once == Mapping([Pair(list, Sequence([SAVED]))])
      && MergeNode(t, [], once, src) == src
  {
    hide Prune, IsKnownDefault, Assign, StructurallyEqual, Identity;
    var list := "claude-api-key";
    var pair := Pair(list, Sequence([CREDENTIAL]));
    assert [] + [list] == [list] && [pair][1..] == [];
    CredentialPruned([list]);
    var once := [Pair(list, Sequence([SAVED]))];
    assert MergePair(t, [], [], pair) == once;
    assert MergePairs(t, [], [], [pair]) == once;
    CredentialUnmatched(t);
    var slots := Assign(t, [SAVED], NoneUsed(1), [CREDENTIAL]);
    assert [CREDENTIAL][1..] == [];
    assert MergeItems(t, [list], [SAVED], slots, [CREDENTIAL]) == [CREDENTIAL];
    assert MergePair(t, [], once, pair) == [pair];
    assert MergePairs(t, [], once, [pair]) == [pair];
  }

  lemma HeadersKept(path: Path)
    ensures !IsKnownDefault(path, HEADERS.value) && Prune(path, HEADERS.value) == HEADERS.value
    ensures !IsZero(HEADERS.value) && !IsEmptyCollection(HEADERS.value)
  {
    hide Dotted, IsNonZeroDefault, IsKnownDefault, PrunePairs;
    var x := HEADERS.value.pairs[0];
    ShortIsNoDefault(path + ["x"], x.value);
    ScalarKept(path + ["x"], x.value);
    assert HEADERS.value.pairs[1..] == [];
    PrunedKeptPair(path, HEADERS.value.pairs);
    NothingPruned(path);
    assert [x] + [] == HEADERS.value.pairs;
    assert !IsZero(x.value);
    DefaultCollection(path, HEADERS.value);
  }

  lemma ScalarKept(path: Path, node: Node)
    requires node.Scalar? && !IsZero(node) && !IsNonZeroDefault(path, node)
    ensures !IsKnownDefault(path, node) && Prune(path, node) == node
  {
    hide IsZero, IsNonZeroDefault;
  }

  lemma CredentialPruned(path: Path)
    ensures Prune(path, Sequence([CREDENTIAL])) == Sequence([SAVED])
    ensures !IsKnownDefault(path, Sequence([SAVED]))
  {
    hide IsZero, IsKnownDefault, IsEmptyCollection;
    EntriesAreZero();
    var pairs := CREDENTIAL.pairs;
    assert pairs[4..] == [HEADERS] && [HEADERS][1..] == [];
    assert pairs[0..] == pairs;
    for i := 0 to 4
      invariant PrunePairs(path, pairs) == PrunePairs(path, pairs[i..])
    {
      assert pairs[i..][0] == pairs[i] && pairs[i..][1..] == pairs[i + 1..];
      PrunedZeroPair(path, pairs[i..]);
    }
    HeadersKept(path + ["headers"]);
    PrunedKeptPair(path, [HEADERS]);
    NothingPruned(path);
    assert [HEADERS] + [] == [HEADERS];
    PrunedOne(path, CREDENTIAL);
    NotZeroList(Sequence([SAVED]), HEADERS);
    DefaultCollection(path, Sequence([SAVED]));
  }

  predicate AllBlank(t: Text, pairs: seq<Pair>) {
    forall i :: 0 <= i < |pairs| && pairs[i].value.Scalar? ==> t.trim(pairs[i].value.value) == ""
  }

  /** Without a scalar that says something there is nothing to be recognized by. */
  lemma {:induction false} BlankHasNoScalar(t: Text, pairs: seq<Pair>, key: string)
    requires AllBlank(t, pairs)
    ensures ScalarUnder(t, pairs, key) == "" && FirstScalar(t, pairs) == ""
  {
    if pairs != [] {
      BlankHasNoScalar(t, pairs[1..], key);
    }
  }

  lemma {:induction false} BlankHasNoIdentity(t: Text, pairs: seq<Pair>, keys: seq<string>)
    requires AllBlank(t, pairs)
    ensures IdentityUnder(t, pairs, keys) == ""
  {
    hide ScalarUnder, AllBlank;
    if keys != [] {
      BlankHasNoScalar(t, pairs, keys[0]);
      BlankHasNoIdentity(t, pairs, keys[1..]);
    }
  }

  lemma CredentialUnmatched(t: Text)
    requires t.trim("") == ""
    ensures Assign(t, [SAVED], NoneUsed(1), [CREDENTIAL]) == [-1]
  {
    hide ScalarUnder, IdentityUnder, FirstScalar;
    assert AllBlank(t, CREDENTIAL.pairs);
    BlankHasNoScalar(t, CREDENTIAL.pairs, "");
    BlankHasNoIdentity(t, CREDENTIAL.pairs, IDENTITY_KEYS);
    assert Identity(t, CREDENTIAL.pairs) == "";
    assert !SameIdentity(t, CREDENTIAL, SAVED) && !StructurallyEqual(t, SAVED, CREDENTIAL);
    assert MatchIndex(t, [SAVED], NoneUsed(1), CREDENTIAL) == -1;
    assert [CREDENTIAL][1..] == [];
  }
}
