/** Evicting the oldest entries of a store, shared by the replay caches. */
module Eviction {
  /** What a batch of evictions leaves: some entries, none older than one that was removed. */
  ghost predicate Survivors<E(!new)>(stamp: E -> int, before: map<string, E>, after: map<string, E>) {
    && after.Keys <= before.Keys
    && (forall k :: k in after ==> after[k] == before[k])
    && forall j, k :: j in before && j !in after && k in after ==> stamp(before[j]) <= stamp(after[k])
  }

  lemma CountWith<E>(entries: map<string, E>, key: string, e: E)
    ensures |entries[key := e]| == |entries| + if key in entries then 0 else 1
  {
    var after := entries[key := e];
    assert after.Keys == entries.Keys + {key};
    assert |after.Keys| == |after| && |entries.Keys| == |entries|;
  }

  predicate IsOldest<E>(stamp: E -> int, entries: map<string, E>, k: string) {
    k in entries && forall j :: j in entries ==> stamp(entries[k]) <= stamp(entries[j])
  }

  lemma {:induction false} OldestAmong<E>(stamp: E -> int, entries: map<string, E>, keys: set<string>)
    returns (k: string)
    requires keys != {} && keys <= entries.Keys
    ensures k in keys && forall j :: j in keys ==> stamp(entries[k]) <= stamp(entries[j])
    decreases |keys|
  {
    k :| k in keys;
    if keys != {k} {
      var rest := keys - {k};
      assert rest != {};
      var m := OldestAmong(stamp, entries, rest);
      if stamp(entries[m]) < stamp(entries[k]) {
        k := m;
      }
    }
  }

  /** Any entry of the smallest timestamp; ties go to any of them. */
  method PickOldest<E>(stamp: E -> int, entries: map<string, E>) returns (k: string)
    requires |entries| > 0
    ensures IsOldest(stamp, entries, k)
  {
    ghost var oldest := OldestAmong(stamp, entries, entries.Keys);
    k :| k in entries && forall j :: j in entries ==> stamp(entries[k]) <= stamp(entries[j]);
  }

  /** Removing the oldest of the survivors leaves survivors. */
  lemma RemoveOldest<E(!new)>(stamp: E -> int, before: map<string, E>, entries: map<string, E>, k: string)
    requires Survivors(stamp, before, entries) && IsOldest(stamp, entries, k)
    ensures Survivors(stamp, before, entries - {k}) && |entries - {k}| == |entries| - 1
  {
    assert entries.Keys == (entries - {k}).Keys + {k};
  }
}
