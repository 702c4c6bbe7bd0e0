/**
 Which generated trees can be saved again and again: those whose sequence elements keep what they are recognized by.
 */
module YamlStable {
  import opened Options
  import opened YamlTree
  import opened YamlMerge
  import opened YamlCoverage
  import opened YamlTwice

  // ---------- Neat trees ----------

  /** Keys are distinct and carry no outer white space, in every mapping. */
  ghost predicate Neat(t: Text, node: Node)
    decreases node
  {
    match node
    case Scalar(_, _) => true
    case Mapping(pairs) =>
      && Distinct(pairs)
      && forall i :: 0 <= i < |pairs| ==> t.trim(pairs[i].key) == pairs[i].key && Neat(t, pairs[i].value)
    case Sequence(items) => forall i :: 0 <= i < |items| ==> Neat(t, items[i])
  }

  ghost predicate NeatPairs(t: Text, pairs: seq<Pair>) {
    Neat(t, Mapping(pairs))
  }

  lemma NeatRest(t: Text, pairs: seq<Pair>)
    requires NeatPairs(t, pairs) && pairs != []
    ensures NeatPairs(t, pairs[1..]) && t.trim(pairs[0].key) == pairs[0].key && Neat(t, pairs[0].value)
  {
  }

  lemma NeatCons(t: Text, pair: Pair, rest: seq<Pair>)
    requires t.trim(pair.key) == pair.key && Neat(t, pair.value) && NeatPairs(t, rest) && !HasKey(rest, pair.key)
    ensures NeatPairs(t, [pair] + rest)
  {
    var all := [pair] + rest;
    assert all[0] == pair && forall i :: 0 <= i < |rest| ==> all[i + 1] == rest[i];
    forall i, j | 0 <= i < j < |all| ensures all[i].key != all[j].key {
      assert all[j] == rest[j - 1];
      if i > 0 {
        assert all[i] == rest[i - 1];
      }
    }
  }

  lemma {:induction false} PrunedNeat(t: Text, path: Path, node: Node)
    requires Neat(t, node)
    ensures Neat(t, Prune(path, node))
    decreases node, 1
  {
    match node
    case Scalar(_, _) =>
    case Mapping(pairs) => PrunedPairsNeat(t, path, pairs);
    case Sequence(items) =>
      var pruned := PruneItems(path, items);
      forall i | 0 <= i < |pruned| ensures Neat(t, pruned[i]) {
        PrunedItem(path, items, i);
        PrunedNeat(t, path, items[i]);
      }
  }

  lemma {:induction false} PrunedPairsNeat(t: Text, path: Path, pairs: seq<Pair>)
    requires NeatPairs(t, pairs)
    ensures NeatPairs(t, PrunePairs(path, pairs))
    decreases pairs, 0
  {
    hide IsKnownDefault, IsEmptyCollection, Prune, Neat;
    if pairs == [] {
      assert PrunePairs(path, pairs) == pairs;
    } else {
      NeatRest(t, pairs);
      var rest, child := PrunePairs(path, pairs[1..]), path + [pairs[0].key];
      PrunedPairsNeat(t, path, pairs[1..]);
      PrunedNeat(t, child, pairs[0].value);
      NotAmongPruned(t, path, pairs);
      NeatCons(t, Pair(pairs[0].key, Prune(child, pairs[0].value)), rest);
    }
  }

  lemma NotAmongPruned(t: Text, path: Path, pairs: seq<Pair>)
    requires NeatPairs(t, pairs) && pairs != []
    ensures !HasKey(PrunePairs(path, pairs[1..]), pairs[0].key)
  {
    var rest := PrunePairs(path, pairs[1..]);
    forall i | 0 <= i < |rest| ensures rest[i].key != pairs[0].key {
      PrunedKeys(path, pairs[1..], i);
      var j :| 0 <= j < |pairs[1..]| && pairs[1..][j].key == rest[i].key;
      assert pairs[1..][j] == pairs[j + 1];
    }
  }

  lemma {:induction false} DroppedNeat(t: Text, pairs: seq<Pair>, generated: seq<Pair>)
    requires NeatPairs(t, pairs)
    ensures NeatPairs(t, DropMissing(t, pairs, generated))
    decreases |pairs|
  {
    hide Kept, Neat;
    if pairs == [] {
      assert DropMissing(t, pairs, generated) == pairs;
    } else {
      NeatRest(t, pairs);
      DroppedNeat(t, pairs[1..], generated);
      var rest := DropMissing(t, pairs[1..], generated);
      LookupDropped(t, pairs[1..], generated, pairs[0].key);
      FirstNotInRest(t, pairs);
      NeatCons(t, pairs[0], rest);
      assert [] + rest == rest;
    }
  }

  lemma FirstNotInRest(t: Text, pairs: seq<Pair>)
    requires NeatPairs(t, pairs) && pairs != []
    ensures !HasKey(pairs[1..], pairs[0].key)
  {
    assert forall i :: 0 <= i < |pairs| - 1 ==> pairs[1..][i] == pairs[i + 1];
  }

  lemma {:induction false} MergedNeat(t: Text, path: Path, dst: Node, src: Node)
    requires Neat(t, dst) && Neat(t, src)
    ensures Neat(t, MergeNode(t, path, dst, src))
    decreases src, 2
  {
    hide Assign;
    match src
    case Scalar(_, _) =>
    case Mapping(pairs) => MergedPairsNeat(t, path, if dst.Mapping? then dst.pairs else pairs, pairs);
    case Sequence(items) =>
      var original := Items(Some(dst));
      var slots := Assign(t, original, NoneUsed(|original|), items);
      var merged := MergeItems(t, path, original, slots, items);
      forall i | 0 <= i < |items| ensures Neat(t, merged[i]) {
        MergedItem(t, path, original, slots, items, i);
        MergedItemNeat(t, path, Taken(original, slots[i]), items[i]);
      }
  }

  lemma {:induction false} MergedItemNeat(t: Text, path: Path, dst: Option<Node>, src: Node)
    requires (dst.Some? ==> Neat(t, dst.value)) && Neat(t, src)
    ensures Neat(t, MergeItem(t, path, dst, src))
    decreases src, 3
  {
    hide Neat, MergeNode, DropMissing;
    if dst.Some? {
      MergedNeat(t, path, dst.value, src);
      var merged := MergeNode(t, path, dst.value, src);
      if merged.Mapping? && src.Mapping? {
        assert merged == Mapping(merged.pairs);
        DroppedNeat(t, merged.pairs, src.pairs);
      }
    }
  }

  lemma {:induction false} MergedPairsNeat(t: Text, path: Path, dst: seq<Pair>, src: seq<Pair>)
    requires NeatPairs(t, dst) && NeatPairs(t, src)
    ensures NeatPairs(t, MergePairs(t, path, dst, src))
    decreases src, 1
  {
    hide Neat, MergePair;
    if src != [] {
      NeatRest(t, src);
      MergedPairNeat(t, path, dst, src[0]);
      MergedPairsNeat(t, path, MergePair(t, path, dst, src[0]), src[1..]);
    }
  }

  lemma {:induction false} MergedPairNeat(t: Text, path: Path, dst: seq<Pair>, pair: Pair)
    requires NeatPairs(t, dst) && t.trim(pair.key) == pair.key && Neat(t, pair.value)
    ensures NeatPairs(t, MergePair(t, path, dst, pair))
    decreases pair, 0
  {
    hide MergeNode, Prune, IsKnownDefault;
    var i, child := FindKey(dst, pair.key), path + [pair.key];
    if i >= 0 {
      MergedNeat(t, child, dst[i].value, pair.value);
    } else {
      PrunedNeat(t, child, pair.value);
    }
  }

  // ---------- What an element is recognized by ----------

  predicate Answers(t: Text, pair: Pair, key: string) {
    t.lower(t.trim(pair.key)) == t.lower(key)
  }

  predicate IsIdentityKey(t: Text, pair: Pair) {
    exists n :: 0 <= n < |IDENTITY_KEYS| && Answers(t, pair, IDENTITY_KEYS[n])
  }

  /**
   The element names itself: something is said under an identity key, nothing that is said under one is a default, and
   no two keys differ in case or outer white space only.
   */
  ghost predicate Anchored(t: Text, path: Path, pairs: seq<Pair>) {
    && (exists i :: 0 <= i < |pairs| && IsIdentityKey(t, pairs[i]) && Says(t, pairs[i].value))
    && (forall i :: 0 <= i < |pairs| && IsIdentityKey(t, pairs[i]) ==>
          && pairs[i].value.Scalar?
          && (Says(t, pairs[i].value) ==> !OnlyDefaults(path + [pairs[i].key], pairs[i].value)))
    && (forall i, j :: 0 <= i < j < |pairs| ==> t.lower(t.trim(pairs[i].key)) != t.lower(t.trim(pairs[j].key)))
  }

  predicate Says(t: Text, node: Node) {
    node.Scalar? && t.trim(node.value) != ""
  }

  lemma {:induction false} NoAnswer(t: Text, pairs: seq<Pair>, key: string)
    requires forall i :: 0 <= i < |pairs| ==> !Answers(t, pairs[i], key)
    ensures ScalarUnder(t, pairs, key) == ""
  {
    if pairs != [] {
      NoAnswer(t, pairs[1..], key);
    }
  }

  lemma {:induction false} OneAnswer(t: Text, pairs: seq<Pair>, key: string, n: nat)
    requires n < |pairs| && Answers(t, pairs[n], key) && pairs[n].value.Scalar?
    requires forall i :: 0 <= i < |pairs| && Answers(t, pairs[i], key) ==> i == n
    ensures ScalarUnder(t, pairs, key) == t.trim(pairs[n].value.value)
  {
    if n > 0 {
      assert !Answers(t, pairs[0], key);
      assert forall i :: 0 <= i < |pairs| - 1 ==> pairs[1..][i] == pairs[i + 1];
      OneAnswer(t, pairs[1..], key, n - 1);
    }
  }

  /** The keys of the saved element are keys of the generated one. */
  lemma SavedKey(t: Text, result: Node, src: Node, i: nat) returns (j: nat)
    requires result.Mapping? && src.Mapping? && Neat(t, result) && Neat(t, src) && GeneratedOnly(t, result, src)
    requires i < |result.pairs|
    ensures j < |src.pairs| && src.pairs[j].key == result.pairs[i].key
  {
    assert Kept(t, result.pairs[i].key, src.pairs);
    j :| 0 <= j < |src.pairs| && t.trim(src.pairs[j].key) == t.trim(result.pairs[i].key);
  }

  lemma SettledScalar(t: Text, path: Path, result: Node, src: Node, j: nat)
    requires src.Mapping? && Settled(t, path, result, src) && j < |src.pairs| && src.pairs[j].value.Scalar?
    ensures result.Mapping?
    ensures var now := Lookup(result.pairs, src.pairs[j].key);
      now == Some(src.pairs[j].value) || (now == None && OnlyDefaults(path + [src.pairs[j].key], src.pairs[j].value))
  {
    hide OnlyDefaults;
  }

  /** What is said under an identity key is the same before and after saving. */
  lemma SameScalar(t: Text, path: Path, result: Node, src: Node, key: string)
    requires result.Mapping? && src.Mapping? && Neat(t, result) && Neat(t, src)
    requires Settled(t, path, result, src) && GeneratedOnly(t, result, src) && Anchored(t, path, src.pairs)
    requires key in IDENTITY_KEYS
    ensures ScalarUnder(t, result.pairs, key) == ScalarUnder(t, src.pairs, key)
  {
    hide Settled, GeneratedOnly, OnlyDefaults, ScalarUnder, Kept;
    forall i | 0 <= i < |result.pairs| && Answers(t, result.pairs[i], key)
      ensures exists j ::
        0 <= j < |src.pairs| && Answers(t, src.pairs[j], key) && src.pairs[j].key == result.pairs[i].key
    {
      var j := SavedKey(t, result, src, i);
      assert Answers(t, src.pairs[j], key);
    }
    if n :| 0 <= n < |src.pairs| && Answers(t, src.pairs[n], key) {
      AnchoredAt(t, path, src.pairs, key, n);
      OneAnswer(t, src.pairs, key, n);
      SettledScalar(t, path, result, src, n);
      var m := FindKey(result.pairs, src.pairs[n].key);
      if m >= 0 {
        assert Answers(t, result.pairs[m], key);
        OneAnswer(t, result.pairs, key, m);
      } else {
        assert forall i :: 0 <= i < |result.pairs| ==> result.pairs[i].key != src.pairs[n].key;
        NoAnswer(t, result.pairs, key);
      }
    } else {
      NoAnswer(t, src.pairs, key);
      NoAnswer(t, result.pairs, key);
    }
  }

  lemma AnchoredAt(t: Text, path: Path, pairs: seq<Pair>, key: string, n: nat)
    requires Anchored(t, path, pairs) && key in IDENTITY_KEYS && n < |pairs| && Answers(t, pairs[n], key)
    ensures pairs[n].value.Scalar?
    ensures Says(t, pairs[n].value) ==> !OnlyDefaults(path + [pairs[n].key], pairs[n].value)
    ensures forall i :: 0 <= i < |pairs| && Answers(t, pairs[i], key) ==> i == n
  {
    hide OnlyDefaults;
    assert IsIdentityKey(t, pairs[n]);
  }

  lemma {:induction false} SameIdentityUnder(t: Text, path: Path, result: Node, src: Node, keys: seq<string>)
    requires result.Mapping? && src.Mapping? && Neat(t, result) && Neat(t, src)
    requires Settled(t, path, result, src) && GeneratedOnly(t, result, src) && Anchored(t, path, src.pairs)
    requires forall k :: k in keys ==> k in IDENTITY_KEYS
    ensures IdentityUnder(t, result.pairs, keys) == IdentityUnder(t, src.pairs, keys)
  {
    hide Neat, Settled, GeneratedOnly, Anchored, ScalarUnder;
    if keys != [] {
      SameScalar(t, path, result, src, keys[0]);
      SameIdentityUnder(t, path, result, src, keys[1..]);
    }
  }

  lemma {:induction false} SaysUnder(t: Text, path: Path, pairs: seq<Pair>, keys: seq<string>, n: nat)
    requires n < |keys| && ScalarUnder(t, pairs, keys[n]) != ""
    ensures IdentityUnder(t, pairs, keys) != ""
  {
    hide ScalarUnder;
    if ScalarUnder(t, pairs, keys[0]) == "" {
      SaysUnder(t, path, pairs, keys[1..], n - 1);
    }
  }

  lemma AnchoredHasIdentity(t: Text, path: Path, pairs: seq<Pair>)
    requires Anchored(t, path, pairs)
    ensures IdentityUnder(t, pairs, IDENTITY_KEYS) != ""
  {
    hide OnlyDefaults, ScalarUnder, IdentityUnder;
    var i :| 0 <= i < |pairs| && IsIdentityKey(t, pairs[i]) && Says(t, pairs[i].value);
    var n :| 0 <= n < |IDENTITY_KEYS| && Answers(t, pairs[i], IDENTITY_KEYS[n]);
    AnchoredAt(t, path, pairs, IDENTITY_KEYS[n], i);
    OneAnswer(t, pairs, IDENTITY_KEYS[n], i);
    SaysUnder(t, path, pairs, IDENTITY_KEYS, n);
  }

  /** The first of these keys that says something in both elements decides whether they are the same. */
  lemma FirstKeyDecides(t: Text, a: seq<Pair>, b: seq<Pair>, keys: seq<string>, n: nat)
    requires keys == ["id", "name", "alias", "api-key", "api_key", "apikey", "key", "provider", "model"] && n < |keys|
    requires forall m :: 0 <= m < n ==> ScalarUnder(t, a, keys[m]) == ScalarUnder(t, b, keys[m]) == ""
    requires ScalarUnder(t, a, keys[n]) != "" && ScalarUnder(t, b, keys[n]) != ""
    ensures SameIdentity(t, Mapping(a), Mapping(b)) <==> ScalarUnder(t, a, keys[n]) == ScalarUnder(t, b, keys[n])
  {
    hide ScalarUnder, IdentityUnder, FirstScalar;
    IdentityIs(t, a, keys, n);
    IdentityIs(t, b, keys, n);
    SameNameSameValue(keys[n], ScalarUnder(t, a, keys[n]), ScalarUnder(t, b, keys[n]));
  }

  lemma {:induction false} IdentityIs(t: Text, pairs: seq<Pair>, keys: seq<string>, n: nat)
    requires n < |keys| && ScalarUnder(t, pairs, keys[n]) != ""
    requires forall m :: 0 <= m < n ==> ScalarUnder(t, pairs, keys[m]) == ""
    ensures IdentityUnder(t, pairs, keys) == keys[n] + "=" + ScalarUnder(t, pairs, keys[n])
  {
    hide ScalarUnder;
    if n > 0 {
      assert ScalarUnder(t, pairs, keys[0]) == "";
      IdentityIs(t, pairs, keys[1..], n - 1);
    }
  }

  lemma SameNameSameValue(key: string, v: string, w: string)
    ensures key + "=" + v == key + "=" + w <==> v == w
  {
    if key + "=" + v == key + "=" + w {
      assert (key + "=" + v)[|key| + 1..] == v && (key + "=" + w)[|key| + 1..] == w;
    }
  }

  /** Elements with an `id` each are the same exactly if these are equal, whatever their other keys say. */
  lemma IdsDecide(t: Text, a: seq<Pair>, b: seq<Pair>, i: nat, j: nat)
    requires OnlyId(t, a, i) && OnlyId(t, b, j)
    ensures SameIdentity(t, Mapping(a), Mapping(b)) <==> t.trim(a[i].value.value) == t.trim(b[j].value.value)
  {
    hide ScalarUnder, SameIdentity;
    OneAnswer(t, a, "id", i);
    OneAnswer(t, b, "id", j);
    FirstKeyDecides(t, a, b, ["id", "name", "alias", "api-key", "api_key", "apikey", "key", "provider", "model"], 0);
  }

  /** One pair says something under "id", in any case. */
  predicate OnlyId(t: Text, pairs: seq<Pair>, n: nat) {
    && n < |pairs| && Answers(t, pairs[n], "id") && Says(t, pairs[n].value)
    && forall i :: 0 <= i < |pairs| && Answers(t, pairs[i], "id") ==> i == n
  }

  /** A saved element that names itself is recognized again. */
  lemma AnchoredIsRecognized(t: Text, path: Path, result: Node, src: Node)
    requires src.Mapping? && Neat(t, result) && Neat(t, src)
    requires Settled(t, path, result, src) && GeneratedOnly(t, result, src) && Anchored(t, path, src.pairs)
    ensures SameIdentity(t, src, result)
  {
    hide Neat, GeneratedOnly, Anchored, IdentityUnder, FirstScalar, OnlyDefaults;
    SameIdentityUnder(t, path, result, src, IDENTITY_KEYS);
    AnchoredHasIdentity(t, path, src.pairs);
  }

  // ---------- Matching in order ----------

  /** The element is the generated one, or has its identity. */
  predicate Recognized(t: Text, src: Node, result: Node) {
    src == result || SameIdentity(t, src, result)
  }

  lemma MatchesInPlace(t: Text, items: seq<Node>, result: seq<Node>, used: seq<bool>, n: nat)
    requires |used| == |result| == |items| && UsedUpTo(used, n) && n < |items| && Recognized(t, items[n], result[n])
    ensures MatchIndex(t, result, used, items[n]) == n
  {
    hide StructurallyEqual, Identity, FirstFrom;
    EqualToItself(t, items[n]);
    var byIdentity := FirstFrom(t, result, used, items[n], true, 0);
    if byIdentity >= 0 {
      assert SameIdentity(t, items[n], result[byIdentity]) ==> SameIdentity(t, items[n], result[n]);
    }
  }

  lemma {:induction false} AssignInOrder(t: Text, items: seq<Node>, result: seq<Node>, used: seq<bool>, n: nat)
    requires |used| == |result| == |items| && UsedUpTo(used, n)
    requires forall i :: 0 <= i < |items| ==> Recognized(t, items[i], result[i])
    ensures Counts(Assign(t, result, used, items[n..]), n)
    decreases |items| - n
  {
    hide MatchIndex, Recognized;
    if n < |items| {
      MatchesInPlace(t, items, result, used, n);
      AssignInOrder(t, items, result, Mark(used, n), n + 1);
      assert items[n..][0] == items[n] && items[n..][1..] == items[n + 1..];
      ConsCounts(Assign(t, result, Mark(used, n), items[n + 1..]), n);
    }
  }

  // ---------- Saving again and again ----------

  /** Every element of a generated sequence is a scalar, or a mapping that names itself. */
  ghost predicate Recognizable(t: Text, path: Path, src: Node)
    decreases src
  {
    match src
    case Scalar(_, _) => true
    case Mapping(pairs) => forall i :: 0 <= i < |pairs| ==> Recognizable(t, path + [pairs[i].key], pairs[i].value)
    case Sequence(items) =>
      forall i :: 0 <= i < |items| ==>
        items[i].Scalar? || (items[i].Mapping? && Anchored(t, path, items[i].pairs) && Recognizable(t, path, items[i]))
  }

  lemma {:induction false} RecognizableRematches(t: Text, path: Path, result: Node, src: Node)
    requires Neat(t, result) && Neat(t, src) && Recognizable(t, path, src) && Settled(t, path, result, src)
    ensures Rematches(t, path, result, src)
    decreases src
  {
    hide Assign, OnlyDefaults, GeneratedOnly, MergeItem, Anchored, Recognized;
    match src
    case Scalar(_, _) =>
    case Mapping(pairs) =>
      forall i | 0 <= i < |pairs| && Lookup(result.pairs, pairs[i].key).Some?
        ensures Rematches(t, path + [pairs[i].key], Lookup(result.pairs, pairs[i].key).value, pairs[i].value)
      {
        RecognizableRematches(t, path + [pairs[i].key], Lookup(result.pairs, pairs[i].key).value, pairs[i].value);
      }
    case Sequence(items) =>
      if result.Sequence? {
        forall i | 0 <= i < |items| ensures Recognized(t, items[i], result.items[i]) {
          ElementIsRecognized(t, path, result.items[i], items[i]);
        }
        var none := NoneUsed(|items|);
        AssignInOrder(t, items, result.items, none, 0);
        assert items[0..] == items;
        var slots := Assign(t, result.items, none, items);
        assert Counts(slots, 0);
        forall i | 0 <= i < |items| ensures Rematches(t, path, result.items[i], items[i]) {
          if items[i].Mapping? {
            RecognizableRematches(t, path, result.items[i], items[i]);
          }
        }
      }
  }

  lemma ElementIsRecognized(t: Text, path: Path, result: Node, src: Node)
    requires Neat(t, result) && Neat(t, src) && Settled(t, path, result, src) && GeneratedOnly(t, result, src)
    requires src.Scalar? || (src.Mapping? && Anchored(t, path, src.pairs))
    ensures Recognized(t, src, result)
  {
    hide Neat, GeneratedOnly, Anchored, OnlyDefaults, SameIdentity;
    if src.Mapping? {
      AnchoredIsRecognized(t, path, result, src);
    }
  }

  /**
   If every mapping in a generated sequence names itself, saving twice is saving once, whatever the file held before
   (with unique keys without outer white space).
   */
  lemma RecognizableSettles(t: Text, path: Path, dst: Node, src: Node)
    requires Proper(t, src) && Neat(t, src) && Neat(t, dst) && Recognizable(t, path, src)
    ensures var once := MergeNode(t, path, dst, src); MergeNode(t, path, once, src) == once
  {
    hide MergeNode, Settled, Rematches, Recognizable, Neat, Proper;
    MergeSettles(t, path, dst, src);
    MergedNeat(t, path, dst, src);
    RecognizableRematches(t, path, MergeNode(t, path, dst, src), src);
    SavingTwice(t, path, dst, src);
  }

  // ---------- The other ways to recognize an element ----------

  /** The tree without tags and outer white space. */
  function Shape(t: Text, node: Node): Node
    decreases node
  {
    match node
    case Scalar(_, value) => Scalar("", t.trim(value))
    case Mapping(pairs) =>
      Mapping(seq(|pairs|, i requires 0 <= i < |pairs| => Pair(t.trim(pairs[i].key), Shape(t, pairs[i].value))))
    case Sequence(items) => Sequence(seq(|items|, i requires 0 <= i < |items| => Shape(t, items[i])))
  }

  /** Structural equality is equality of these. */
  lemma {:induction false} StructuralMeaning(t: Text, a: Node, b: Node)
    ensures StructurallyEqual(t, a, b) <==> Shape(t, a) == Shape(t, b)
    decreases a
  {
    match a
    case Scalar(_, _) =>
    case Mapping(pairs) =>
      if b.Mapping? && |pairs| == |b.pairs| {
        var x, y := Shape(t, a).pairs, Shape(t, b).pairs;
        forall i | 0 <= i < |pairs|
          ensures x[i] == y[i] <==>
            t.trim(pairs[i].key) == t.trim(b.pairs[i].key) && StructurallyEqual(t, pairs[i].value, b.pairs[i].value)
        {
          StructuralMeaning(t, pairs[i].value, b.pairs[i].value);
        }
        assert x == y <==> forall i :: 0 <= i < |pairs| ==> x[i] == y[i];
      } else if b.Mapping? {
        assert |Shape(t, a).pairs| != |Shape(t, b).pairs|;
      }
    case Sequence(items) =>
      if b.Sequence? && |items| == |b.items| {
        var x, y := Shape(t, a).items, Shape(t, b).items;
        forall i | 0 <= i < |items| ensures x[i] == y[i] <==> StructurallyEqual(t, items[i], b.items[i]) {
          StructuralMeaning(t, items[i], b.items[i]);
        }
        assert x == y <==> forall i :: 0 <= i < |items| ==> x[i] == y[i];
      } else if b.Sequence? {
        assert |Shape(t, a).items| != |Shape(t, b).items|;
      }
  }

  /** Without any identity key that says something, the first scalar that does is what an element is recognized by. */
  lemma {:induction false} FirstScalarIs(t: Text, pairs: seq<Pair>, n: nat)
    requires n <= |pairs| && forall i :: 0 <= i < n ==> !Says(t, pairs[i].value)
    requires n < |pairs| ==> Says(t, pairs[n].value)
    ensures FirstScalar(t, pairs) ==
      if n < |pairs| then t.lower(t.trim(pairs[n].key)) + "=" + t.trim(pairs[n].value.value) else ""
  {
    if n > 0 {
      FirstScalarIs(t, pairs[1..], n - 1);
    }
  }

  // ---------- What becomes of a recognized element ----------

  /**
   An element that was recognized keeps its generated keys in its own order in front of new ones, and takes on a key
   that it lacks exactly if that says something or is an explicit weight.
   */
  lemma ElementStaysInPlace(t: Text, path: Path, dst: Node, src: Node)
    requires Proper(t, src) && dst.Mapping? && src.Mapping?
    ensures var result := MergeItem(t, path, Some(dst), src);
      && result.Mapping?
      && Keys(DropMissing(t, dst.pairs, src.pairs)) <= Keys(result.pairs)
      && forall i :: 0 <= i < |src.pairs| && !HasKey(dst.pairs, src.pairs[i].key) ==>
           var child := path + [src.pairs[i].key];
           HasKey(result.pairs, src.pairs[i].key) <==>
             !OnlyDefaults(child, src.pairs[i].value) || IsWeight(child, src.pairs[i].value)
  {
    hide MergePairs, OnlyDefaults, IsWeight, Keys, DropMissing, Kept;
    var merged := MergePairs(t, path, dst.pairs, src.pairs);
    KeysMerged(t, path, dst.pairs, src.pairs);
    DroppedPrefix(t, dst.pairs, merged, src.pairs);
    forall i | 0 <= i < |src.pairs| && !HasKey(dst.pairs, src.pairs[i].key)
      ensures var child := path + [src.pairs[i].key];
        HasKey(DropMissing(t, merged, src.pairs), src.pairs[i].key) <==>
          !OnlyDefaults(child, src.pairs[i].value) || IsWeight(child, src.pairs[i].value)
    {
      KeyAdded(t, path, dst.pairs, src.pairs, i);
      LookupDropped(t, merged, src.pairs, src.pairs[i].key);
      OwnKeyKept(t, src, i);
    }
  }

  lemma OwnKeyKept(t: Text, src: Node, i: nat)
    requires Proper(t, src) && src.Mapping? && i < |src.pairs|
    ensures Kept(t, src.pairs[i].key, src.pairs)
  {
  }

  lemma {:induction false} DroppedPrefix(t: Text, a: seq<Pair>, b: seq<Pair>, generated: seq<Pair>)
    requires Keys(a) <= Keys(b)
    ensures Keys(DropMissing(t, a, generated)) <= Keys(DropMissing(t, b, generated))
    decreases |a|
  {
    hide Kept;
    if a == [] {
      assert Keys(DropMissing(t, a, generated)) == [];
    } else {
      assert |a| <= |b| && Keys(a)[0] == Keys(b)[0];
      assert Keys(a[1..]) <= Keys(b[1..]) by {
        assert Keys(a)[1..] == Keys(a[1..]) && Keys(b)[1..] == Keys(b[1..]);
      }
      DroppedPrefix(t, a[1..], b[1..], generated);
      KeysCons(t, a, generated);
      KeysCons(t, b, generated);
    }
  }

  lemma KeysCons(t: Text, pairs: seq<Pair>, generated: seq<Pair>)
    requires pairs != []
    ensures Keys(DropMissing(t, pairs, generated)) ==
      (if Kept(t, pairs[0].key, generated) then [pairs[0].key] else []) + Keys(DropMissing(t, pairs[1..], generated))
  {
    hide Kept;
    var rest := DropMissing(t, pairs[1..], generated);
    assert ([pairs[0]] + rest)[1..] == rest && [] + rest == rest;
  }
}
