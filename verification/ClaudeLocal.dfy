/**
 The in-process Claude replay store: a map of sessions and a running total of the bytes in it, changed in place under
 one lock. The clock is a parameter, and `drawn` counts the generation names drawn so far.
 */
module ClaudeLocal {
  import opened ClaudeTurns
  import opened Eviction

  type Key = string

  datatype Entry = Entry(contents: seq<Content>, timestamp: int, generation: nat, deleted: bool)

  datatype Snapshot = Snapshot(loaded: bool, found: bool, generation: nat)

  datatype Op =
    | Cache(key: Key, content: Content)
    | Get(key: Key)
    | Replace(key: Key, snapshot: Snapshot, content: Content)
    | Delete(key: Key, snapshot: Snapshot)
    | Remove(key: Key)
    | Clear
    | Purge

  /** Deletions come with a snapshot that the local store hands out: of a present entry, or not loaded at all. */
  predicate Local(op: Op) {
    op.Delete? ==> !op.snapshot.loaded || op.snapshot.found
  }

  // ---------- The bytes in a map of entries ----------

  ghost function Total(entries: map<Key, Entry>): int {
    if entries == map[] then 0
    else
      var k :| k in entries;
      Size(entries[k].contents) + Total(entries - {k})
  }

  /** The total does not depend on the order in which entries are counted. */
  lemma {:induction false} TotalWithout(entries: map<Key, Entry>, key: Key)
    requires key in entries
    ensures Total(entries) == Size(entries[key].contents) + Total(entries - {key})
    decreases |entries|
  {
    var k :| k in entries && Total(entries) == Size(entries[k].contents) + Total(entries - {k});
    if k != key {
      assert entries.Keys == (entries - {k}).Keys + {k};
      assert entries.Keys == (entries - {key}).Keys + {key};
      TotalWithout(entries - {k}, key);
      TotalWithout(entries - {key}, k);
      assert entries - {k} - {key} == entries - {key} - {k};
    }
  }

  function BytesAt(entries: map<Key, Entry>, key: Key): nat {
    if key in entries then Size(entries[key].contents) else 0
  }

  lemma TotalWith(entries: map<Key, Entry>, key: Key, e: Entry)
    ensures Total(entries[key := e]) == Total(entries) - BytesAt(entries, key) + Size(e.contents)
  {
    var after := entries[key := e];
    TotalWithout(after, key);
    if key in entries {
      TotalWithout(entries, key);
    }
    assert after - {key} == entries - {key};
    assert key !in entries ==> entries - {key} == entries;
  }

  lemma NothingInNothing(entries: map<Key, Entry>)
    ensures |entries| == 0 ==> Total(entries) == 0
  {
  }

  lemma {:induction false} TotalNonNegative(entries: map<Key, Entry>)
    ensures Total(entries) >= 0
    decreases |entries|
  {
    if entries != map[] {
      var k :| k in entries;
      TotalWithout(entries, k);
      assert entries.Keys == (entries - {k}).Keys + {k};
      TotalNonNegative(entries - {k});
    }
  }

  function Stamp(e: Entry): int {
    e.timestamp
  }

  /** Every session is within its limits, and tombstones are empty. */
  ghost predicate Sound(limits: Limits, entries: map<Key, Entry>) {
    forall k :: k in entries ==>
      InSession(limits, entries[k].contents) && (entries[k].deleted ==> entries[k].contents == [])
  }

  /** Generations in use have been drawn. */
  ghost predicate Drawn(entries: map<Key, Entry>, drawn: nat) {
    forall k :: k in entries ==> entries[k].generation < drawn
  }

  /** Each entry has the generation it had before, or one drawn since. */
  ghost predicate Moved(before: map<Key, Entry>, after: map<Key, Entry>, drawn: nat) {
    forall k :: k in after ==>
      after[k].generation >= drawn || (k in before && before[k].generation == after[k].generation)
  }

  /** Storing an entry: it is put in place, and older ones go only if there is then too much. */
  ghost predicate Placed(limits: Limits, before: map<Key, Entry>, after: map<Key, Entry>, key: Key, e: Entry) {
    var full := before[key := e];
    && Survivors(Stamp, full, after)
    && (|full| <= limits.entries && Total(full) <= limits.totalBytes ==> after == full)
  }

  /** Some entries are left as they were, and one may have been put in. */
  ghost predicate AtMostPut(before: map<Key, Entry>, after: map<Key, Entry>, key: Key, e: Entry) {
    forall k :: k in after ==> (k == key && after[k] == e) || (k in before && after[k] == before[k])
  }

  lemma SoundWith(limits: Limits, entries: map<Key, Entry>, key: Key, e: Entry)
    requires Sound(limits, entries) && InSession(limits, e.contents) && (e.deleted ==> e.contents == [])
    ensures Sound(limits, entries[key := e])
  {
    hide InSession;
  }

  class ReplayStore {
    const limits: Limits
    const json: Json
    var entries: map<Key, Entry>
    var totalBytes: int
    var drawn: nat

    /** The running total is the sum of what is stored. */
    ghost predicate Accounted()
      reads this
    {
      totalBytes == Total(entries) && Sound(limits, entries)
    }

    ghost predicate InLimits()
      reads this
    {
      |entries| <= limits.entries && totalBytes <= limits.totalBytes
    }

    ghost predicate Valid()
      reads this
    {
      && limits.entries > 0 && limits.evictBatch >= 2 && limits.turns > 0
      && Accounted() && Drawn(entries, drawn)
    }

    constructor (limits: Limits, json: Json)
      requires limits.entries > 0 && limits.evictBatch >= 2 && limits.turns > 0
      ensures Valid() && InLimits() && entries == map[] && this.limits == limits && this.json == json
    {
      this.limits, this.json := limits, json;
      entries, totalBytes, drawn := map[], 0, 0;
    }

    method NewGeneration() returns (generation: nat)
      modifies this`drawn
      ensures generation == old(drawn) && drawn == old(drawn) + 1
    {
      generation := drawn;
      drawn := drawn + 1;
    }

    /** Removes up to `count` entries, oldest first; entries of the same age go in any order. */
    method EvictOldest(count: nat)
      requires Accounted()
      modifies this`entries, this`totalBytes
      ensures Accounted() && Survivors(Stamp, old(entries), entries)
      ensures |entries| == if count < |old(entries)| then |old(entries)| - count else 0
    {
      hide Total, InSession;
      var n := 0;
      while n < count && |entries| > 0
        invariant n <= count && n <= |old(entries)|
        invariant |entries| == |old(entries)| - n
        invariant Accounted() && Survivors(Stamp, old(entries), entries)
        decreases count - n
      {
        var k := PickOldest(Stamp, entries);
        RemoveOldest(Stamp, old(entries), entries, k);
        Remove(k);
        n := n + 1;
      }
    }

    method Remove(key: Key)
      requires Accounted() && key in entries
      modifies this`entries, this`totalBytes
      ensures Accounted() && entries == old(entries) - {key} && |entries| == |old(entries)| - 1
      ensures totalBytes == old(totalBytes) - Size(old(entries)[key].contents)
    {
      hide Total, InSession;
      TotalWithout(entries, key);
      totalBytes := totalBytes - Size(entries[key].contents);
      entries := entries - {key};
      assert old(entries).Keys == entries.Keys + {key};
    }

    /** Evicts batches until both limits hold. It stops, and leaves a store within its limits alone. */
    method EnforceLimits()
      requires Accounted() && limits.evictBatch >= 2
      modifies this`entries, this`totalBytes
      ensures Accounted() && InLimits() && Survivors(Stamp, old(entries), entries)
      ensures old(InLimits()) ==> entries == old(entries)
      ensures old(|entries|) > limits.entries ==> |entries| == 0 || |entries| <= old(|entries|) - 2
    {
      hide Total, InSession;
      while |entries| > limits.entries || totalBytes > limits.totalBytes
        invariant Accounted() && Survivors(Stamp, old(entries), entries)
        invariant entries == old(entries) || (!old(InLimits()) && (|entries| == 0 || |entries| <= old(|entries|) - 2))
        decreases |entries|
      {
        // Bytes are only counted for stored entries, so the total never has to be reset for an empty map.
        NothingInNothing(entries);
        assert |entries| > 0;
        EvictOldest(limits.evictBatch);
      }
    }

    /** Puts an entry in place of what was there and moves the total along. */
    method Put(key: Key, e: Entry)
      requires Accounted() && InSession(limits, e.contents) && (e.deleted ==> e.contents == [])
      modifies this`entries, this`totalBytes
      ensures Accounted() && entries == old(entries)[key := e]
      ensures totalBytes == old(totalBytes) - BytesAt(old(entries), key) + Size(e.contents)
      ensures |entries| == old(|entries|) + if key in old(entries) then 0 else 1
    {
      hide Total, InSession, Sound, Size;
      TotalWith(entries, key, e);
      CountWith(entries, key, e);
      SoundWith(limits, entries, key, e);
      totalBytes := totalBytes - BytesAt(entries, key) + Size(e.contents);
      entries := entries[key := e];
    }

    method Store(key: Key, e: Entry)
      requires Valid() && InSession(limits, e.contents) && (e.deleted ==> e.contents == []) && e.generation < drawn
      modifies this`entries, this`totalBytes
      ensures Valid() && InLimits() && Placed(limits, old(entries), entries, key, e)
      ensures AtMostPut(old(entries), entries, key, e)
    {
      hide Total, InSession, Sound;
      Put(key, e);
      EnforceLimits();
    }

    /** Stores one acceptable turn as a new session. */
    method CacheBestEffort(key: Key, content: Content, now: int) returns (ok: bool)
      requires Valid()
      modifies this
      ensures Valid() && (ok || old(InLimits()) ==> InLimits())
      ensures drawn >= old(drawn) && Moved(old(entries), entries, old(drawn))
      ensures ok <==> key != "" && content != "" && |content| <= limits.sessionBytes && json.wellFormed(content)
      ensures ok ==> Placed(limits, old(entries), entries, key, Entry([content], now, old(drawn), false))
      ensures !ok ==> entries == old(entries)
    {
      hide Total, Survivors, Placed;
      if key == "" || !Acceptable(limits, json, content) {
        return false;
      }
      var generation := NewGeneration();
      assert Size([content]) == |content| + Size([]);
      Store(key, Entry([content], now, generation, false));
      return true;
    }

    /** A tombstone that stands for absence, so that a later write can be told from it. */
    method Reserve(key: Key, now: int) returns (e: Entry)
      requires Valid() && key !in entries
      modifies this
      ensures Valid() && InLimits() && e == Entry([], now, old(drawn), true) && drawn == old(drawn) + 1
      ensures Survivors(Stamp, old(entries)[key := e], entries) && AtMostPut(old(entries), entries, key, e)
      ensures old(InLimits()) ==> key in entries || |entries| < limits.entries
      ensures InSession(limits, e.contents) && BytesAt(entries, key) == Size(e.contents)
      ensures old(InLimits()) && old(|entries|) < limits.entries ==> entries == old(entries)[key := e]
    {
      hide Total;
      var generation := NewGeneration();
      e := Entry([], now, generation, true);
      assert InSession(limits, e.contents);
      Put(key, e);
      EnforceLimits();
    }

    /** Drops what is left of an expired session and reserves its place. */
    method Renew(key: Key, now: int) returns (e: Entry)
      requires Valid()
      modifies this
      ensures Valid() && e == Entry([], now, old(drawn), true) && drawn == old(drawn) + 1
      ensures Moved(old(entries), entries, old(drawn))
      ensures InSession(limits, e.contents) && BytesAt(entries, key) == Size(e.contents)
      ensures old(InLimits()) ==> InLimits() && (key in entries || |entries| < limits.entries)
    {
      hide Total, Survivors, InSession, Sound, Size;
      if key in entries {
        Remove(key);
      }
      e := Reserve(key, now);
    }

    lemma StoredIsSound(key: Key)
      requires Valid() && key in entries
      ensures InSession(limits, entries[key].contents) && (entries[key].deleted ==> entries[key].contents == [])
      ensures BytesAt(entries, key) == Size(entries[key].contents) && entries[key].generation < drawn
    {
      hide Total, InSession;
    }

    /** Puts back an entry as it was read, without moving the total. */
    method PutBack(key: Key, e: Entry)
      requires Valid() && InSession(limits, e.contents) && (e.deleted ==> e.contents == [])
      requires BytesAt(entries, key) == Size(e.contents) && e.generation < drawn
      modifies this`entries
      ensures Valid() && entries == old(entries)[key := e]
      ensures old(InLimits()) && (key in old(entries) || old(|entries|) < limits.entries) ==> InLimits()
    {
      hide Total, InSession, Sound, Size;
      TotalWith(entries, key, e);
      CountWith(entries, key, e);
      SoundWith(limits, entries, key, e);
      entries := entries[key := e];
    }

    /**
     Reads a session, or reserves its place. The entry is put back after a reservation that may have evicted it, and
     the limits still hold.
     */
    method Get(key: Key, now: int) returns (contents: seq<Content>, snapshot: Snapshot, found: bool)
      requires Valid()
      modifies this
      ensures Valid() && (old(InLimits()) ==> InLimits())
      ensures drawn >= old(drawn) && Moved(old(entries), entries, old(drawn)) &&
        (snapshot.found ==> snapshot.generation < drawn)
      ensures key == "" ==> !snapshot.loaded && !found && entries == old(entries)
      ensures key != "" ==>
        && key in entries && snapshot == Snapshot(true, true, entries[key].generation)
        && entries[key].timestamp == now
        && found == (contents != []) && contents == entries[key].contents
      ensures key != "" && key in old(entries) && now - old(entries)[key].timestamp <= limits.ttl ==>
        entries == old(entries)[key := old(entries)[key].(timestamp := now)]
      ensures key != "" && !(key in old(entries) && now - old(entries)[key].timestamp <= limits.ttl) ==>
        entries[key] == Entry([], now, old(drawn), true)
    {
      hide Total, Survivors, InSession, Sound, Size, BytesAt;
      if key == "" {
        return [], Snapshot(false, false, 0), false;
      }
      var e;
      if key !in entries || now - entries[key].timestamp > limits.ttl {
        e := Renew(key, now);
      } else {
        StoredIsSound(key);
        e := entries[key];
      }
      e := e.(timestamp := now);
      PutBack(key, e);
      snapshot := Snapshot(true, true, e.generation);
      if e.deleted {
        return [], snapshot, false;
      }
      return e.contents, snapshot, e.contents != [];
    }

    /** Whether the store is still in the state that the snapshot describes. */
    predicate Current(key: Key, snapshot: Snapshot)
      reads this
    {
      (key in entries) == snapshot.found && (key in entries ==> entries[key].generation == snapshot.generation)
    }

    function ContentsAt(key: Key): seq<Content>
      reads this
    {
      if key in entries then entries[key].contents else []
    }

    /** Appends a completed turn if the snapshot is current. */
    method ReplaceIfUnchanged(key: Key, snapshot: Snapshot, content: Content, now: int) returns (ok: bool)
      requires Valid()
      modifies this
      ensures Valid() && (ok || old(InLimits()) ==> InLimits())
      ensures drawn >= old(drawn) && Moved(old(entries), entries, old(drawn))
      ensures ok <==>
        && key != "" && content != "" && |content| <= limits.sessionBytes && json.wellFormed(content)
        && (!snapshot.loaded || old(Current(key, snapshot)))
      ensures !ok ==> entries == old(entries)
      ensures ok && snapshot.loaded ==>
        var e := Entry(Append(limits, json, old(ContentsAt(key)), content), now, old(drawn), false);
        Placed(limits, old(entries), entries, key, e)
      ensures ok && !snapshot.loaded ==>
        Placed(limits, old(entries), entries, key, Entry([content], now, old(drawn), false))
    {
      hide Total, Survivors, InSession, Append, Placed;
      if key == "" || !Acceptable(limits, json, content) {
        return false;
      }
      if !snapshot.loaded {
        ok := CacheBestEffort(key, content, now);
        return;
      }
      if !Current(key, snapshot) {
        return false;
      }
      EmptySession(limits);
      var contents := AppendContent(limits, json, ContentsAt(key), content);
      AppendIsLongest(limits, json, ContentsAt(key), content);
      var generation := NewGeneration();
      Store(key, Entry(contents, now, generation, false));
      return true;
    }

    /** A guarded delete that adds an entry to a full store: its snapshot says, rightly, that there is none. */
    predicate Overfills(key: Key, snapshot: Snapshot)
      reads this
    {
      key != "" && snapshot.loaded && !snapshot.found && key !in entries && |entries| >= limits.entries
    }

    /**
     Replaces the session by a tombstone if the snapshot is current. The limits are not enforced: they go on to hold
     exactly if the call does not add an entry to a full store. Snapshots from `Get` add none.
     */
    method DeleteIfUnchanged(key: Key, snapshot: Snapshot, now: int) returns (ok: bool)
      requires Valid()
      modifies this
      ensures Valid() && drawn >= old(drawn) && Moved(old(entries), entries, old(drawn))
      ensures old(InLimits()) ==> (InLimits() <==> !old(Overfills(key, snapshot)))
      ensures ok <==> key != "" && (!snapshot.loaded || old(Current(key, snapshot)))
      ensures !ok ==> entries == old(entries)
      ensures ok && snapshot.loaded ==> entries == old(entries)[key := Entry([], now, old(drawn), true)]
      ensures ok && !snapshot.loaded ==> entries == old(entries) - {key}
    {
      hide Total, InSession;
      if key == "" {
        return false;
      }
      if !snapshot.loaded {
        DeleteRequired(key);
        return true;
      }
      if !Current(key, snapshot) {
        return false;
      }
      var generation := NewGeneration();
      EmptySession(limits);
      Put(key, Entry([], now, generation, true));
      return true;
    }

    method DeleteRequired(key: Key)
      requires Valid()
      modifies this`entries, this`totalBytes
      ensures Valid() && (old(InLimits()) ==> InLimits())
      ensures entries == if key == "" then old(entries) else old(entries) - {key}
    {
      hide Total, InSession;
      if key != "" && key in entries {
        Remove(key);
      }
    }

    method Clear()
      requires Valid()
      modifies this`entries, this`totalBytes
      ensures Valid() && InLimits() && entries == map[]
    {
      entries, totalBytes := map[], 0;
    }

    method PurgeExpired(now: int)
      requires Valid()
      modifies this`entries, this`totalBytes
      ensures Valid() && (old(InLimits()) ==> InLimits())
      ensures entries == map k | k in old(entries) && now - old(entries)[k].timestamp <= limits.ttl :: old(entries)[k]
    {
      hide Total, InSession;
      var todo := entries.Keys;
      while todo != {}
        invariant Valid() && (old(InLimits()) ==> InLimits()) && todo <= entries.Keys <= old(entries).Keys
        invariant forall k :: k in entries ==> entries[k] == old(entries)[k]
        invariant forall k :: k in old(entries) && k !in todo ==>
          (k in entries <==> now - old(entries)[k].timestamp <= limits.ttl)
        decreases |todo|
      {
        var k :| k in todo;
        todo := todo - {k};
        if now - entries[k].timestamp > limits.ttl {
          Remove(k);
        }
      }
    }

    method Perform(op: Op, now: int)
      requires Valid()
      modifies this
      ensures Valid() && (old(InLimits()) && Local(op) ==> InLimits())
      ensures drawn >= old(drawn) && Moved(old(entries), entries, old(drawn))
    {
      hide Total, InSession, Sound, Survivors, Placed;
      match op {
        case Cache(key, content) => var _ := CacheBestEffort(key, content, now);
        case Get(key) => var _, snapshot, _ := Get(key, now); assert Local(Delete(key, snapshot));
        case Replace(key, snapshot, content) => var _ := ReplaceIfUnchanged(key, snapshot, content, now);
        case Delete(key, snapshot) => var _ := DeleteIfUnchanged(key, snapshot, now);
        case Remove(key) => DeleteRequired(key);
        case Clear => Clear();
        case Purge => PurgeExpired(now);
      }
    }

    /** The generation was once drawn and is not the one under the key. */
    ghost predicate Left(key: Key, generation: nat)
      reads this
    {
      generation < drawn && !(key in entries && entries[key].generation == generation)
    }

    /**
     Over every run of calls, the total is exact; both limits hold if deletions use the snapshots that the store hands
     out; and a generation that has left a key never comes back to it.
     */
    method Drive(ops: seq<Op>, times: seq<int>)
      requires Valid() && |times| == |ops|
      modifies this
      ensures Valid() && totalBytes == Total(entries)
      ensures old(InLimits()) && (forall i :: 0 <= i < |ops| ==> Local(ops[i])) ==>
        |entries| <= limits.entries && totalBytes <= limits.totalBytes
      ensures forall key, generation :: old(Left(key, generation)) ==> Left(key, generation)
    {
      hide Total, Sound;
      for i := 0 to |ops|
        invariant Valid() && drawn >= old(drawn) && Moved(old(entries), entries, old(drawn))
        invariant old(InLimits()) && (forall j :: 0 <= j < i ==> Local(ops[j])) ==> InLimits()
      {
        Perform(ops[i], times[i]);
      }
    }
  }

  /**
   A snapshot whose generation has left its key is fenced for ever: after any further calls, neither a replace nor a
   delete that it guards does anything.
   */
  method StaleFailsForever(store: ReplayStore, ops: seq<Op>, times: seq<int>, key: Key, snapshot: Snapshot,
                           content: Content, now: int)
    returns (replaced: bool, deleted: bool)
    requires store.Valid() && |times| == |ops|
    requires snapshot.loaded && snapshot.found && store.Left(key, snapshot.generation)
    modifies store
    ensures !replaced && !deleted
  {
    store.Drive(ops, times);
    assert store.Left(key, snapshot.generation);
    replaced := store.ReplaceIfUnchanged(key, snapshot, content, now);
    deleted := store.DeleteIfUnchanged(key, snapshot, now);
  }

  /** A read and a turn guarded by it: the turn is accepted, and the session ends in it or held it before. */
  method TurnIsKept(store: ReplayStore, key: Key, content: Content, now: int) returns (ok: bool)
    requires store.Valid() && key != "" && Acceptable(store.limits, store.json, content)
    modifies store
    ensures ok
    ensures key in store.entries ==>
      var contents := store.entries[key].contents;
      Known(store.json, contents, content) || (contents != [] && contents[|contents| - 1] == content)
  {
    hide Total, Sound;
    var contents, snapshot, found := store.Get(key, now);
    store.StoredIsSound(key);
    AppendIsLongest(store.limits, store.json, store.ContentsAt(key), content);
    ok := store.ReplaceIfUnchanged(key, snapshot, content, now);
  }

  /** Any full store can be made to hold one entry too many. */
  method FullStoreOverflows(store: ReplayStore, key: Key, now: int)
    requires store.Valid() && store.InLimits() && |store.entries| == store.limits.entries
    requires key != "" && key !in store.entries
    modifies store
    ensures |store.entries| == store.limits.entries + 1 && !store.InLimits()
  {
    ghost var e := Entry([], now, store.drawn, true);
    CountWith(store.entries, key, e);
    var ok := store.DeleteIfUnchanged(key, Snapshot(true, false, 0), now);
  }
}
