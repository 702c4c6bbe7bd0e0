/**
 A stable ordering of a sequence by a rank: the elements of rank 0, then those of rank 1, and so on, each group
 in its original order.
 */
module StableOrder {

  /** The elements whose key is `k`, in their order. */
  function Select<T, K(==)>(key: T -> K, k: K, s: seq<T>): seq<T> {
    if s == [] then []
    else (if key(s[0]) == k then [s[0]] else []) + Select(key, k, s[1..])
  }

  /** The elements of every rank below `n`, rank by rank. */
  function Ordered<T>(rank: T -> int, s: seq<T>, n: nat): seq<T> {
    if n == 0 then [] else Ordered(rank, s, n - 1) + Select(rank, n - 1, s)
  }

  lemma {:induction false} SelectConcat<T, K>(key: T -> K, k: K, a: seq<T>, b: seq<T>)
    ensures Select(key, k, a + b) == Select(key, k, a) + Select(key, k, b)
  {
    if a == [] {
      assert a + b == b;
    } else {
      assert (a + b)[1..] == a[1..] + b;
      SelectConcat(key, k, a[1..], b);
    }
  }

  lemma SelectSnoc<T, K>(key: T -> K, k: K, s: seq<T>, i: nat)
    requires i < |s|
    ensures Select(key, k, s[..i + 1]) == Select(key, k, s[..i]) + if key(s[i]) == k then [s[i]] else []
  {
    assert s[..i + 1] == s[..i] + [s[i]];
    assert [s[i]][1..] == [];
    SelectConcat(key, k, s[..i], [s[i]]);
  }

  lemma {:induction false} SelectHas<T, K>(key: T -> K, k: K, s: seq<T>)
    ensures forall x :: x in Select(key, k, s) ==> x in s && key(x) == k
  {
    if s != [] {
      SelectHas(key, k, s[1..]);
    }
  }

  /** The key decides the rank. */
  ghost predicate Decides<T(!new), K>(key: T -> K, rank: T -> int, of: K -> int) {
    forall x :: rank(x) == of(key(x))
  }

  lemma {:induction false} SelectOfBucket<T(!new), K>(
    key: T -> K, rank: T -> int, of: K -> int, s: seq<T>, j: int, k: K)
    requires Decides(key, rank, of)
    ensures Select(key, k, Select(rank, j, s)) == if of(k) == j then Select(key, k, s) else []
  {
    if s != [] {
      var head := if rank(s[0]) == j then [s[0]] else [];
      SelectConcat(key, k, head, Select(rank, j, s[1..]));
      SelectOfBucket(key, rank, of, s[1..], j, k);
      if of(k) == j && key(s[0]) == k {
        assert rank(s[0]) == of(key(s[0])) == j;
      }
    }
  }

  /** Elements of one key stay in their relative order, and none is lost, once its rank is covered. */
  lemma {:induction false} SelectOfOrdered<T(!new), K>(
    key: T -> K, rank: T -> int, of: K -> int, s: seq<T>, n: nat, k: K)
    requires Decides(key, rank, of)
    ensures Select(key, k, Ordered(rank, s, n)) == if 0 <= of(k) < n then Select(key, k, s) else []
  {
    if n > 0 {
      var lower, bucket := Ordered(rank, s, n - 1), Select(rank, n - 1, s);
      calc {
        Select(key, k, Ordered(rank, s, n));
        Select(key, k, lower + bucket);
        { SelectConcat(key, k, lower, bucket); }
        Select(key, k, lower) + Select(key, k, bucket);
        { SelectOfOrdered(key, rank, of, s, n - 1, k); SelectOfBucket(key, rank, of, s, n - 1, k); }
        if 0 <= of(k) < n then Select(key, k, s) else [];
      }
    }
  }

  lemma {:induction false} SameBucketsSameOrder<T>(rank: T -> int, a: seq<T>, b: seq<T>, n: nat)
    requires forall k :: 0 <= k < n ==> Select(rank, k, a) == Select(rank, k, b)
    ensures Ordered(rank, a, n) == Ordered(rank, b, n)
  {
    if n > 0 {
      SameBucketsSameOrder(rank, a, b, n - 1);
    }
  }

  lemma OrderedTwice<T(!new)>(rank: T -> int, s: seq<T>, n: nat)
    ensures Ordered(rank, Ordered(rank, s, n), n) == Ordered(rank, s, n)
  {
    var same := (k: int) => k;
    assert Decides(rank, rank, same);
    forall k | 0 <= k < n ensures Select(rank, k, Ordered(rank, s, n)) == Select(rank, k, s) {
      SelectOfOrdered(rank, rank, same, s, n, k);
    }
    SameBucketsSameOrder(rank, Ordered(rank, s, n), s, n);
  }

  /** An element put in front turns up, if its rank is covered, at some place between the others. */
  lemma {:induction false} OrderedCons<T>(rank: T -> int, x: T, s: seq<T>, n: nat)
    returns (before: seq<T>, after: seq<T>)
    ensures before + after == Ordered(rank, s, n)
    ensures Ordered(rank, [x] + s, n) == if 0 <= rank(x) < n then before + [x] + after else before + after
  {
    assert ([x] + s)[1..] == s;
    if n == 0 {
      before, after := [], [];
    } else {
      before, after := OrderedCons(rank, x, s, n - 1);
      if rank(x) == n - 1 {
        before, after := before + after, Select(rank, n - 1, s);
      } else {
        after := after + Select(rank, n - 1, s);
      }
    }
  }

  lemma {:induction false} OrderedOfNothing<T>(rank: T -> int, n: nat)
    ensures Ordered(rank, [], n) == []
  {
    if n > 0 {
      OrderedOfNothing(rank, n - 1);
    }
  }

  lemma {:induction false} OrderedIsSorted<T>(rank: T -> int, s: seq<T>, n: nat)
    ensures forall x :: x in Ordered(rank, s, n) ==> rank(x) < n
    ensures forall i, j :: 0 <= i < j < |Ordered(rank, s, n)| ==>
      rank(Ordered(rank, s, n)[i]) <= rank(Ordered(rank, s, n)[j])
  {
    if n > 0 {
      OrderedIsSorted(rank, s, n - 1);
      SelectHas(rank, n - 1, s);
      var a, b := Ordered(rank, s, n - 1), Select(rank, n - 1, s);
      assert forall i :: 0 <= i < |a| ==> a[i] in a;
      assert forall i :: 0 <= i < |b| ==> b[i] in b;
    }
  }
}
