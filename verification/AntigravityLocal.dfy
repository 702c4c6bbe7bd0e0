/**
 The in-process Antigravity replay store: a map of entries, a revision counter and an eviction epoch, changed in
 place under one lock. Each public operation is a method; each is shown to be one step of the branch register.

 The clock, the limits and the source of generation names are parameters: `now` is the time of the call, and
 `nextBranch` counts the names drawn so far (0 stands for the empty name, which is never drawn).
 */
module AntigravityLocal {
  import opened BranchRegister
  import opened Bytes
  import opened Eviction

  datatype Entry = Entry(items: Chain, timestamp: int, revision: nat, branch: nat, deleted: bool)

  datatype Snapshot = Snapshot(items: Chain, loaded: bool, found: bool, revision: nat, branch: nat, evictionEpoch: nat)

  const UNLOADED: Snapshot := Snapshot([], false, false, 0, 0, 0)

  function CellOf(e: Entry): Cell {
    Cell(e.revision, e.branch, e.deleted, e.items)
  }

  function CellsOf(entries: map<Key, Entry>): (cells: map<Key, Cell>)
    ensures cells.Keys == entries.Keys
    ensures forall k :: k in entries ==> cells[k] == CellOf(entries[k])
  {
    map k | k in entries :: CellOf(entries[k])
  }

  function SeenOf(s: Snapshot): Seen {
    Seen(s.revision, s.branch, s.items)
  }

  function Stamp(e: Entry): int {
    e.timestamp
  }

  function Below(n: nat): (r: set<nat>)
    ensures forall i: nat :: i in r <==> i < n
  {
    if n == 0 then {} else Below(n - 1) + {n - 1}
  }

  /** The store as a register, with the identifiers that its counters have passed. */
  function RegisterOf(entries: map<Key, Entry>, revision: nat, nextBranch: nat): Register {
    Register(CellsOf(entries), Below(revision + 1), Below(nextBranch))
  }

  predicate Positive(entries: map<Key, Entry>) {
    forall k :: k in entries ==> entries[k].revision > 0 && entries[k].branch > 0
  }

  /** Dropping entries is a step. */
  lemma DropStep(before: map<Key, Entry>, after: map<Key, Entry>, revision: nat, nextBranch: nat)
    requires RegisterOf(before, revision, nextBranch).Valid()
    requires after.Keys <= before.Keys && forall k :: k in after ==> CellOf(after[k]) == CellOf(before[k])
    ensures RegisterOf(after, revision, nextBranch).Valid()
    ensures Next(RegisterOf(before, revision, nextBranch), RegisterOf(after, revision, nextBranch))
  {
  }

  /** What storing an entry, and evicting others with it, may leave. */
  ghost predicate Stored(before: map<Key, Entry>, after: map<Key, Entry>, key: Key, e: Entry) {
    && (forall k :: k in after && k != key ==> k in before && after[k] == before[k])
    && (key in after ==> after[key] == e)
  }

  /** Storing an entry: it is put in place, and if there are then too many, the oldest batch goes. */
  ghost predicate Placed(max: nat, batch: nat, before: map<Key, Entry>, after: map<Key, Entry>, key: Key, e: Entry) {
    var full := before[key := e];
    && Stored(before, after, key, e)
    && if |full| <= max then after == full
       else Survivors(Stamp, full, after) && |after| == if batch < |full| then |full| - batch else 0
  }

  lemma SurvivesItself(entries: map<Key, Entry>)
    ensures Survivors(Stamp, entries, entries)
  {
  }

  /** Putting in an entry that was not there, after making room. */
  lemma RoomIsStored(before: map<Key, Entry>, room: map<Key, Entry>, key: Key, e: Entry)
    requires Survivors(Stamp, before, room) && key !in before
    ensures Stored(before, room[key := e], key, e) && room[key := e] - {key} == room
  {
  }

  /** Storing one entry under a fresh revision is a step, if its branch is fresh or its chain goes on. */
  lemma StoreStep(before: map<Key, Entry>, after: map<Key, Entry>, key: Key, e: Entry, revision: nat, nextBranch: nat,
                  nextBranch': nat)
    requires RegisterOf(before, revision, nextBranch).Valid() && Stored(before, after, key, e)
    requires e.revision == revision + 1 && (e.deleted ==> e.items == []) && nextBranch > 0 && Positive(before)
    requires
      || (e.branch == nextBranch && nextBranch' == nextBranch + 1)
      || (&& nextBranch' == nextBranch && key in before && e.branch == before[key].branch
          && !e.deleted && before[key].items <= e.items)
    ensures RegisterOf(after, revision + 1, nextBranch').Valid() && Positive(after)
    ensures Next(RegisterOf(before, revision, nextBranch), RegisterOf(after, revision + 1, nextBranch'))
  {
    var r, r' := RegisterOf(before, revision, nextBranch), RegisterOf(after, revision + 1, nextBranch');
    assert Put(r, r', key, CellOf(e));
    if e.branch == nextBranch && nextBranch' == nextBranch + 1 {
      PutFresh(r, r', key, CellOf(e));
    } else {
      PutExtension(r, r', key, CellOf(e));
    }
  }

  class ReplayStore {
    const maxEntries: nat
    const evictBatch: nat
    const ttl: int
    var entries: map<Key, Entry>
    var nextRevision: nat
    var evictionEpoch: nat
    var nextBranch: nat
    ghost var issued: set<Snapshot>

    ghost function Abs(): Register
      reads this
    {
      RegisterOf(entries, nextRevision, nextBranch)
    }

    /** Every snapshot handed out still describes its revision truthfully, and was of a present entry. */
    ghost predicate Valid()
      reads this
    {
      && nextBranch > 0
      && Abs().Valid()
      && Positive(entries)
      && Truthful()
    }

    ghost predicate Truthful()
      reads this
    {
      forall s :: s in issued ==> s.loaded && s.found && s.branch > 0 && Faithful(Abs(), SeenOf(s))
    }

    /**
     The snapshots a caller can hold: one that Get handed out; one that names no entry at all; or one that was loaded
     from Home before the client fell back to this store, which has no revision here and no branch name drawn here.
     */
    ghost predicate Known(s: Snapshot)
      reads this
    {
      s in issued || (!s.found && s.branch == 0 && s.items == []) || Foreign(s)
    }

    ghost predicate Foreign(s: Snapshot)
      reads this
    {
      s.found && s.revision == 0 && forall k :: k in entries ==> entries[k].branch != s.branch
    }

    /** One step of the branch register, with the older snapshots kept. */
    twostate predicate Stepped()
      reads this
    {
      Valid() && Next(old(Abs()), Abs()) && old(issued) <= issued
    }

    constructor (maxEntries: nat, evictBatch: nat, ttl: int)
      ensures Valid() && entries == map[] && issued == {}
      ensures this.maxEntries == maxEntries && this.evictBatch == evictBatch && this.ttl == ttl
    {
      this.maxEntries, this.evictBatch, this.ttl := maxEntries, evictBatch, ttl;
      entries, nextRevision, evictionEpoch, nextBranch := map[], 0, 0, 1;
      issued := {};
    }

    /** Removes up to `count` entries, oldest first; entries of the same age go in any order. */
    method EvictOldest(count: nat)
      modifies this`entries, this`evictionEpoch
      ensures Survivors(Stamp, old(entries), entries)
      ensures |entries| == if count < |old(entries)| then |old(entries)| - count else 0
      ensures evictionEpoch == old(evictionEpoch) + |old(entries)| - |entries|
    {
      var n := 0;
      while n < count && |entries| > 0
        invariant n <= count && n <= |old(entries)|
        invariant |entries| == |old(entries)| - n
        invariant Survivors(Stamp, old(entries), entries)
        invariant evictionEpoch == old(evictionEpoch) + n
        decreases count - n
      {
        var k := PickOldest(Stamp, entries);
        RemoveOldest(Stamp, old(entries), entries, k);
        evictionEpoch := evictionEpoch + 1;
        entries := entries - {k};
        n := n + 1;
      }
    }

    /** Draws a generation name that no entry has ever had. */
    method NewGeneration() returns (branch: nat)
      modifies this`nextBranch
      ensures branch == old(nextBranch) && nextBranch == old(nextBranch) + 1
    {
      branch := nextBranch;
      nextBranch := nextBranch + 1;
    }

    /** The snapshots stay truthful over any step. */
    twostate lemma SnapshotsKept()
      requires old(Truthful()) && Next(old(Abs()), Abs()) && issued == old(issued)
      ensures Truthful()
    {
      hide Next, Faithful;
      forall s | s in issued ensures Faithful(Abs(), SeenOf(s)) {
        FaithfulNext(old(Abs()), Abs(), SeenOf(s));
      }
    }

    /** Stores an entry under a fresh revision and evicts a batch if that makes the store too big. */
    method Store(key: Key, items: Chain, branch: nat, deleted: bool, now: int)
      requires Valid() && (deleted ==> items == [])
      requires branch > 0
      requires key in entries && entries[key].branch == branch && !deleted && entries[key].items <= items
      modifies this`entries, this`nextRevision, this`evictionEpoch
      ensures Stepped() && nextRevision == old(nextRevision) + 1
      ensures var e := Entry(items, now, nextRevision, branch, deleted);
        Placed(maxEntries, evictBatch, old(entries), entries, key, e)
    {
      hide Next, Faithful, CellsOf, Below, RegisterOf, Register.Valid, Positive, Truthful;
      nextRevision := nextRevision + 1;
      var e := Entry(items, now, nextRevision, branch, deleted);
      entries := entries[key := e];
      if |entries| > maxEntries {
        EvictOldest(evictBatch);
      }
      StoreStep(old(entries), entries, key, e, old(nextRevision), old(nextBranch), nextBranch);
      SnapshotsKept();
    }

    /** The same under a fresh branch. */
    method StoreFresh(key: Key, items: Chain, deleted: bool, now: int) returns (branch: nat)
      requires Valid() && (deleted ==> items == [])
      modifies this`entries, this`nextRevision, this`evictionEpoch, this`nextBranch
      ensures Stepped()
      ensures branch == old(nextBranch) && nextRevision == old(nextRevision) + 1
      ensures var e := Entry(items, now, nextRevision, branch, deleted);
        Placed(maxEntries, evictBatch, old(entries), entries, key, e)
    {
      hide Next, Faithful, CellsOf, Below, RegisterOf, Register.Valid, Positive, Truthful;
      nextRevision := nextRevision + 1;
      branch := NewGeneration();
      var e := Entry(items, now, nextRevision, branch, deleted);
      entries := entries[key := e];
      if |entries| > maxEntries {
        EvictOldest(evictBatch);
      }
      StoreStep(old(entries), entries, key, e, old(nextRevision), old(nextBranch), nextBranch);
      SnapshotsKept();
    }

    /** Remembers, for the proof, that a snapshot of the entry under `key` is handed out. */
    ghost method Issue(key: Key, snapshot: Snapshot)
      requires Valid() && key in entries
      requires snapshot.loaded && snapshot.found && SeenOf(snapshot) == SeenAt(key)
      modifies this`issued
      ensures Valid() && issued == old(issued) + {snapshot}
    {
      hide Next, Register.Valid;
      FaithfulNow(Abs(), key);
      issued := issued + {snapshot};
    }

    ghost function SeenAt(key: Key): Seen
      reads this
      requires key in entries
    {
      Seen(entries[key].revision, entries[key].branch, entries[key].items)
    }

    /** Changing nothing but times and presence keeps everything valid. */
    twostate lemma Dropped()
      requires old(Valid()) && issued == old(issued) && nextRevision == old(nextRevision) &&
        nextBranch == old(nextBranch)
      requires entries.Keys <= old(entries).Keys
      requires forall k :: k in entries ==> CellOf(entries[k]) == CellOf(old(entries)[k])
      ensures Stepped()
    {
      hide Next, Faithful, CellsOf, Register.Valid, Truthful;
      DropStep(old(entries), entries, nextRevision, nextBranch);
      SnapshotsKept();
    }

    /** Fences a miss with a tombstone of its own, after making room. */
    method ReserveAbsent(key: Key, now: int) returns (snapshot: Snapshot)
      requires Valid() && key !in entries
      modifies this
      ensures Stepped()
      ensures key in entries && entries[key] == Entry([], now, nextRevision, old(nextBranch), true)
      ensures old(|entries|) < maxEntries ==> entries == old(entries)[key := entries[key]]
      ensures old(|entries|) >= maxEntries ==> Survivors(Stamp, old(entries), entries - {key})
      ensures snapshot in issued && snapshot.loaded && snapshot.found && SeenOf(snapshot) == SeenAt(key)
      ensures snapshot.items == []
    {
      hide Next, Faithful, CellsOf, Below, RegisterOf, Register.Valid, Positive, Truthful, Survivors, Stored;
      SurvivesItself(entries);
      if |entries| >= maxEntries {
        EvictOldest(evictBatch);
      }
      ghost var room := entries;
      nextRevision := nextRevision + 1;
      var branch := NewGeneration();
      var e := Entry([], now, nextRevision, branch, true);
      entries := entries[key := e];
      RoomIsStored(old(entries), room, key, e);
      StoreStep(old(entries), entries, key, e, old(nextRevision), old(nextBranch), nextBranch);
      SnapshotsKept();
      snapshot := Snapshot([], true, true, nextRevision, branch, evictionEpoch);
      Issue(key, snapshot);
    }

    /** Reads the chain under a key together with a snapshot that guards later writes. */
    method Get(key: Key, now: int) returns (items: Chain, snapshot: Snapshot, found: bool)
      requires Valid()
      modifies this
      ensures Stepped()
      ensures key == "" ==> snapshot == UNLOADED && !found && entries == old(entries)
      ensures key != "" ==>
        && key in entries && snapshot in issued && snapshot.loaded && snapshot.found
        && SeenOf(snapshot) == SeenAt(key)
      ensures found <==>
        && key != "" && key in old(entries) && now - old(entries)[key].timestamp <= ttl
        && !old(entries)[key].deleted && old(entries)[key].items != []
      ensures items == if found then old(entries)[key].items else []
      ensures key != "" && (old(|entries|) < maxEntries || (key in old(entries) && old(|entries|) <= maxEntries)) ==>
        entries == old(entries)[key := entries[key]]
      ensures found ==> snapshot.items == items && entries == old(entries)[key := old(entries)[key].(timestamp := now)]
    {
      hide Next, Faithful, CellsOf, Below, RegisterOf, Register.Valid, Positive, Truthful;
      if key == "" {
        Dropped();
        return [], UNLOADED, false;
      }
      if key !in entries {
        snapshot := ReserveAbsent(key, now);
        return [], snapshot, false;
      }
      if now - entries[key].timestamp > ttl {
        snapshot := RenewExpired(key, now);
        return [], snapshot, false;
      }
      var e := entries[key].(timestamp := now);
      entries := entries[key := e];
      Dropped();
      found := !e.deleted && e.items != [];
      snapshot := Snapshot(e.items, true, true, e.revision, e.branch, evictionEpoch);
      Issue(key, snapshot);
      return if found then e.items else [], snapshot, found;
    }

    /** An expired entry is dropped and the miss that remains is fenced. */
    method RenewExpired(key: Key, now: int) returns (snapshot: Snapshot)
      requires Valid() && key in entries
      modifies this
      ensures Stepped()
      ensures key in entries && snapshot in issued && snapshot.loaded && snapshot.found
      ensures old(|entries|) <= maxEntries ==> entries == old(entries)[key := entries[key]]
      ensures SeenOf(snapshot) == SeenAt(key) && snapshot.items == []
    {
      hide Next, Faithful, CellsOf, Below, RegisterOf, Register.Valid, Positive, Truthful;
      evictionEpoch := evictionEpoch + 1;
      entries := entries - {key};
      assert old(entries).Keys == entries.Keys + {key};
      Dropped();
      ghost var between := Abs();
      snapshot := ReserveAbsent(key, now);
      NextTransitive(old(Abs()), between, Abs());
    }

    /** Stores a chain unconditionally, on a branch of its own. */
    method CacheItems(key: Key, items: Chain, now: int) returns (ok: bool)
      requires Valid()
      modifies this
      ensures Stepped()
      ensures ok <==> key != "" && items != []
      ensures ok ==>
        var e := Entry(items, now, nextRevision, old(nextBranch), false);
        Placed(maxEntries, evictBatch, old(entries), entries, key, e)
      ensures ok ==> nextRevision == old(nextRevision) + 1
      ensures !ok ==> entries == old(entries)
    {
      hide Next, Faithful, Register.Valid, Positive, Truthful;
      if key == "" || items == [] {
        Dropped();
        return false;
      }
      var branch := StoreFresh(key, items, false, now);
      return true;
    }

    /** A snapshot that was handed out names its entry, as long as the revision is stored. */
    lemma IssuedSnapshot(snapshot: Snapshot, key: Key)
      requires Valid() && snapshot in issued
      ensures snapshot.loaded && snapshot.found && snapshot.branch > 0
      ensures key in entries && entries[key].revision == snapshot.revision ==>
        entries[key].branch == snapshot.branch && entries[key].items == snapshot.items
    {
      hide Next, Register.Valid, Positive;
      assert Faithful(Abs(), SeenOf(snapshot));
      if key in entries && entries[key].revision == snapshot.revision {
        assert Abs().AtRevision(key, snapshot.revision);
      }
    }

    lemma StoredIsPositive(key: Key)
      requires Valid() && key in entries
      ensures 0 < entries[key].revision <= nextRevision && entries[key].branch > 0
    {
      hide Truthful;
      assert key in Abs().cells;
    }

    /** Publishes a completed chain if nothing newer has changed the state that the snapshot describes. */
    method ReplaceIfUnchanged(key: Key, snapshot: Snapshot, items: Chain, now: int) returns (ok: bool)
      requires Valid() && (snapshot.loaded ==> Known(snapshot))
      modifies this
      ensures Stepped()
      ensures !ok ==> entries == old(entries)
      ensures ok ==> nextRevision == old(nextRevision) + 1
      ensures ok ==>
        var branch := NewBranch(old(entries), old(nextBranch), key, snapshot, items);
        Placed(maxEntries, evictBatch, old(entries), entries, key, Entry(items, now, nextRevision, branch, false))
      ensures snapshot in old(issued) ==>
        (ok <==> key != "" && items != [] && CanReplace(old(Abs()), key, SeenOf(snapshot), items))
      ensures !snapshot.loaded ==> (ok <==> key != "" && items != [])
      ensures snapshot.loaded && old(Foreign(snapshot)) && snapshot !in old(issued) ==> !ok
    {
      hide Next, Faithful, Register.Valid, Positive, Truthful;
      if snapshot in issued {
        IssuedSnapshot(snapshot, key);
      }
      if key in entries {
        StoredIsPositive(key);
      }
      if key == "" || items == [] {
        Dropped();
        return false;
      }
      if !snapshot.loaded {
        ok := CacheItems(key, items, now);
        return;
      }
      var found := key in entries;
      var matches := found == snapshot.found &&
        ((found && entries[key].revision == snapshot.revision) || (!found && snapshot.evictionEpoch == evictionEpoch));
      var descends := found && !entries[key].deleted && snapshot.branch != 0 &&
        entries[key].branch == snapshot.branch && Prefix(entries[key].items, items);
      if !matches && !descends {
        Dropped();
        return false;
      }
      if snapshot.branch == 0 || (matches && !Prefix(snapshot.items, items)) {
        var branch := StoreFresh(key, items, false, now);
      } else {
        Store(key, items, snapshot.branch, false, now);
      }
      return true;
    }

    /** Clears the state under a key if it is still the one that the snapshot describes. */
    method DeleteIfUnchanged(key: Key, snapshot: Snapshot, now: int) returns (ok: bool)
      requires Valid() && (snapshot.loaded ==> Known(snapshot))
      modifies this
      ensures Stepped()
      ensures !ok ==> entries == old(entries)
      ensures ok ==>
        && nextRevision == old(nextRevision) + 1
        && var e := Entry([], now, nextRevision, old(nextBranch), true);
           Placed(maxEntries, evictBatch, old(entries), entries, key, e)
      ensures snapshot in old(issued) ==> (ok <==> key != "" && CanDelete(old(Abs()), key, SeenOf(snapshot)))
      ensures !snapshot.loaded ==> (ok <==> key != "")
      ensures snapshot.loaded && old(Foreign(snapshot)) && snapshot !in old(issued) ==> !ok
    {
      hide Next, Faithful, Register.Valid, Positive, Truthful;
      if snapshot in issued {
        IssuedSnapshot(snapshot, key);
      }
      if key in entries {
        StoredIsPositive(key);
      }
      if key == "" {
        Dropped();
        return false;
      }
      if !snapshot.loaded {
        DeleteRequired(key, now);
        return true;
      }
      var found := key in entries;
      if found != snapshot.found || (found && entries[key].revision != snapshot.revision) ||
         (!found && snapshot.evictionEpoch != evictionEpoch) {
        Dropped();
        return false;
      }
      var branch := StoreFresh(key, [], true, now);
      return true;
    }

    /** Clears the state under a key unconditionally, leaving a tombstone. */
    method DeleteRequired(key: Key, now: int)
      requires Valid()
      modifies this
      ensures Stepped()
      ensures key == "" ==> entries == old(entries)
      ensures key != "" ==>
        && nextRevision == old(nextRevision) + 1
        && var e := Entry([], now, nextRevision, old(nextBranch), true);
           Placed(maxEntries, evictBatch, old(entries), entries, key, e)
    {
      hide Next, Faithful, Register.Valid, Positive, Truthful;
      if key == "" {
        Dropped();
        return;
      }
      var branch := StoreFresh(key, [], true, now);
    }

    /** Drops everything; revisions and names go on from where they were. */
    method Clear()
      requires Valid()
      modifies this
      ensures Stepped() && entries == map[]
      ensures nextRevision == old(nextRevision) && nextBranch == old(nextBranch)
    {
      hide Next, Faithful, Register.Valid, Positive, Truthful;
      entries := map[];
      evictionEpoch := evictionEpoch + 1;
      Dropped();
    }

    /** Drops exactly the entries that have not been touched for longer than the time to live. */
    method PurgeExpired(now: int)
      requires Valid()
      modifies this
      ensures Stepped()
      ensures forall k :: k in entries <==> k in old(entries) && now - old(entries)[k].timestamp <= ttl
      ensures forall k :: k in entries ==> entries[k] == old(entries)[k]
    {
      hide Next, Faithful, Register.Valid, Positive, Truthful;
      var todo := entries.Keys;
      while todo != {}
        invariant todo <= old(entries).Keys
        invariant nextRevision == old(nextRevision) && nextBranch == old(nextBranch) && issued == old(issued)
        invariant entries.Keys <= old(entries).Keys && forall k :: k in entries ==> entries[k] == old(entries)[k]
        invariant forall k :: k in old(entries) ==>
          (k in entries <==> k in todo || now - old(entries)[k].timestamp <= ttl)
        decreases |todo|
      {
        var k :| k in todo;
        if now - entries[k].timestamp > ttl {
          evictionEpoch := evictionEpoch + 1;
          entries := entries - {k};
        }
        todo := todo - {k};
      }
      Dropped();
    }
  }

  /** The branch a publication goes to. */
  function NewBranch(entries: map<Key, Entry>, nextBranch: nat, key: Key, snapshot: Snapshot, items: Chain): nat {
    if !snapshot.loaded || snapshot.branch == 0 ||
       (key in entries && entries[key].revision == snapshot.revision && !Prefix(snapshot.items, items))
    then nextBranch
    else snapshot.branch
  }

  // ---------- Whole runs ----------

  /** One call; guarded calls name the snapshot they use by its position among those handed out so far. */
  datatype Op =
    | GetOp(key: Key, now: int)
    | CacheOp(key: Key, items: Chain, now: int)
    | ReplaceOp(key: Key, position: nat, items: Chain, now: int)
    | DeleteOp(key: Key, position: nat, now: int)
    | RemoveOp(key: Key, now: int)
    | ClearOp
    | PurgeOp(now: int)

  predicate Guarded(op: Op) {
    op.ReplaceOp? || op.DeleteOp?
  }

  /** Whether a call that writes goes ahead on a register. */
  predicate MayProceed(r: Register, op: Op, snapshot: Snapshot) {
    match op
    case ReplaceOp(key, _, items, _) =>
      key != "" && items != [] && (snapshot.loaded ==> CanReplace(r, key, SeenOf(snapshot), items))
    case DeleteOp(key, _, _) => key != "" && (snapshot.loaded ==> CanDelete(r, key, SeenOf(snapshot)))
    case CacheOp(key, items, _) => key != "" && items != []
    case RemoveOp(key, _) => key != ""
    case _ => true
  }

  /**
   What a call that goes ahead leaves under its key, unless an eviction took it: what it says, under a new revision and,
   except for a publication, on a new branch.
   */
  predicate Leaves(r: Register, r': Register, op: Op) {
    match op
    case ReplaceOp(key, _, items, _) => key in r'.cells ==> Fresh(r, r'.cells[key]) && IsLive(r'.cells[key], items)
    case CacheOp(key, items, _) => key in r'.cells ==> Renews(r, r'.cells[key]) && IsLive(r'.cells[key], items)
    case DeleteOp(key, _, _) => key in r'.cells ==> Renews(r, r'.cells[key]) && r'.cells[key].deleted
    case RemoveOp(key, _) => key in r'.cells ==> Renews(r, r'.cells[key]) && r'.cells[key].deleted
    case ClearOp => r'.cells == map[]
    case _ => true
  }

  predicate IsLive(c: Cell, items: Chain) {
    !c.deleted && c.items == items
  }

  predicate Fresh(r: Register, c: Cell) {
    c.revision !in r.revisions
  }

  predicate Renews(r: Register, c: Cell) {
    c.revision !in r.revisions && c.branch !in r.branches
  }

  /** A call succeeds exactly when the register it meets allows it; it writes what it says, or nothing at all. */
  predicate Explains(r: Register, r': Register, op: Op, snapshot: Snapshot, ok: bool) {
    && (ok <==> MayProceed(r, op, snapshot))
    && (if ok then Leaves(r, r', op) else r'.cells == r.cells)
  }

  /** The calls that hand out a snapshot. */
  predicate HandsOut(op: Op) {
    op.GetOp? && op.key != ""
  }

  function Gets(ops: seq<Op>): nat {
    if ops == [] then 0 else Gets(ops[..|ops| - 1]) + if HandsOut(ops[|ops| - 1]) then 1 else 0
  }

  /** The snapshot that a guarded call uses, out of those handed out so far. */
  function Used(op: Op, snapshots: seq<Snapshot>): Snapshot {
    if Guarded(op) && op.position < |snapshots| then snapshots[op.position] else UNLOADED
  }

  /** The snapshot is of the cell that the register holds under the key. */
  predicate Shows(r: Register, key: Key, s: Snapshot) {
    key in r.cells && s.loaded && SeenOf(s) == Seen(r.cells[key].revision, r.cells[key].branch, r.cells[key].items)
  }

  lemma RegisterCells(entries: map<Key, Entry>, revision: nat, nextBranch: nat)
    ensures var r := RegisterOf(entries, revision, nextBranch);
      r.cells == CellsOf(entries) && revision + 1 !in r.revisions && nextBranch !in r.branches
  {
    hide CellsOf, Below;
  }

  method Perform(store: ReplayStore, op: Op, snapshots: seq<Snapshot>) returns (snapshots': seq<Snapshot>, ok: bool)
    requires store.Valid() && forall s :: s in snapshots ==> s in store.issued
    modifies store
    ensures store.Valid() && Next(old(store.Abs()), store.Abs())
    ensures if HandsOut(op) then |snapshots'| == |snapshots| + 1 && snapshots <= snapshots' else snapshots' == snapshots
    ensures HandsOut(op) ==> Shows(store.Abs(), op.key, snapshots'[|snapshots|])
    ensures forall s :: s in snapshots' ==> s in store.issued
    ensures Explains(old(store.Abs()), store.Abs(), op, Used(op, snapshots), ok)
  {
    hide Next, Faithful, CellsOf, Below, RegisterOf, Register.Valid, Positive, CanReplace, CanDelete;
    snapshots', ok := snapshots, true;
    var snapshot := Used(op, snapshots);
    if Guarded(op) && op.position < |snapshots| {
      assert snapshot in store.issued;
      store.IssuedSnapshot(snapshot, op.key);
    }
    RegisterCells(store.entries, store.nextRevision, store.nextBranch);
    match op {
      case GetOp(key, now) =>
        var items, taken, found := store.Get(key, now);
        if key != "" {
          snapshots' := snapshots + [taken];
        }
      case CacheOp(key, items, now) => ok := store.CacheItems(key, items, now);
      case ReplaceOp(key, _, items, now) => ok := store.ReplaceIfUnchanged(key, snapshot, items, now);
      case DeleteOp(key, _, now) => ok := store.DeleteIfUnchanged(key, snapshot, now);
      case RemoveOp(key, now) =>
        ok := key != "";
        store.DeleteRequired(key, now);
      case ClearOp => store.Clear();
      case PurgeOp(now) => store.PurgeExpired(now);
    }
    RegisterCells(store.entries, store.nextRevision, store.nextBranch);
  }

  /** From the time `born` on, the snapshot described the register truthfully. */
  ghost predicate TruthfulSince(run: seq<Register>, snapshot: Snapshot, born: nat, t: nat)
    requires t < |run|
  {
    born <= t && forall u :: born <= u <= t ==> Faithful(run[u], SeenOf(snapshot))
  }

  /** A guarded call whose branch had left its key at some time since the snapshot was handed out did nothing. */
  ghost predicate Fenced(run: seq<Register>, op: Op, snapshot: Snapshot, born: nat, t: nat, ok: bool)
    requires t + 1 < |run|
  {
    Guarded(op) && snapshot.loaded ==>
      forall i :: born <= i <= t && !run[i].Holds(op.key, snapshot.branch) ==> !ok && run[t + 1].cells == run[t].cells
  }

  lemma StaleCallFails(run: seq<Register>, op: Op, snapshot: Snapshot, born: nat, t: nat, ok: bool)
    requires IsRun(run) && t + 1 < |run| && Guarded(op) && snapshot.loaded
    requires TruthfulSince(run, snapshot, born, t) && Explains(run[t], run[t + 1], op, snapshot, ok)
    ensures Fenced(run, op, snapshot, born, t, ok)
  {
    hide Faithful, Next;
    forall i | born <= i <= t && !run[i].Holds(op.key, snapshot.branch) ensures !ok {
      StaleForever(run, i, t, op.key, SeenOf(snapshot), if op.ReplaceOp? then op.items else []);
    }
  }

  /**
   The snapshot numbered `position` was handed out by the Get with that many before it, at the time `born`, showed what
   was then stored, and has been truthful up to the time `t`.
   */
  ghost predicate Given(run: seq<Register>, ops: seq<Op>, position: nat, s: Snapshot, born: nat, t: nat)
    requires t < |run| && t <= |ops|
  {
    && 0 < born <= t
    && HandsOut(ops[born - 1]) && Gets(ops[..born - 1]) == position
    && Shows(run[born], ops[born - 1].key, s)
    && TruthfulSince(run, s, born, t)
  }

  /** A guarded call uses the snapshot that it names, if that many have been handed out, and none otherwise. */
  ghost predicate UsesNamed(run: seq<Register>, ops: seq<Op>, used: Snapshot, born: nat, t: nat)
    requires t < |run| && t < |ops|
  {
    Guarded(ops[t]) ==>
      && (used.loaded <==> ops[t].position < Gets(ops[..t]))
      && (if used.loaded then Given(run, ops, ops[t].position, used, born, t) else used == UNLOADED)
  }

  /**
   Any series of calls, from any number of clients, is a run of the branch register. Each call succeeds exactly when the
   register it meets allows it, and otherwise changes nothing; guarded calls use the snapshots that earlier Gets handed
   out at the times `born`, and do nothing if since then another branch or none was stored under their key.
   */
  method Drive(store: ReplayStore, ops: seq<Op>)
    returns (used: seq<Snapshot>, done: seq<bool>, ghost born: seq<nat>, ghost run: seq<Register>)
    requires store.Valid()
    modifies store
    ensures |used| == |done| == |born| == |ops| && |run| == |ops| + 1
    ensures IsRun(run) && run[0] == old(store.Abs()) && run[|ops|] == store.Abs()
    ensures forall t :: 0 <= t < |ops| ==> Explains(run[t], run[t + 1], ops[t], used[t], done[t])
    ensures forall t :: 0 <= t < |ops| ==> UsesNamed(run, ops, used[t], born[t], t)
    ensures forall t :: 0 <= t < |ops| ==> Fenced(run, ops[t], used[t], born[t], t, done[t])
  {
    hide Next, Explains, CellsOf, Below, RegisterOf, Register.Valid, Positive, Faithful, Fenced, Shows;
    hide UsesNamed, Given, Gets;
    var snapshots: seq<Snapshot> := [];
    ghost var births: seq<nat> := [];
    used, done, born, run := [], [], [], [store.Abs()];
    NoGets();
    for t := 0 to |ops|
      invariant store.Valid() && forall s :: s in snapshots ==> s in store.issued
      invariant |used| == |done| == |born| == t && |run| == t + 1 && |births| == |snapshots| == Gets(ops[..t])
      invariant IsRun(run) && run[0] == old(store.Abs()) && run[t] == store.Abs()
      invariant forall p :: 0 <= p < |births| ==> Given(run, ops, p, snapshots[p], births[p], t)
      invariant forall i :: 0 <= i < t ==> Explains(run[i], run[i + 1], ops[i], used[i], done[i])
      invariant forall i :: 0 <= i < t ==> UsesNamed(run, ops, used[i], born[i], i)
    {
      ghost var runBefore, given := run, |births|;
      var snapshot, ok := Used(ops[t], snapshots), false;
      born := born + [if Guarded(ops[t]) && ops[t].position < |births| then births[ops[t].position] else t];
      UsesHeld(run, ops, snapshots, births, t);
      snapshots, ok := Perform(store, ops[t], snapshots);
      used, done, run := used + [snapshot], done + [ok], run + [store.Abs()];
      OneMoreGet(ops, t);
      if HandsOut(ops[t]) {
        births := births + [t + 1];
      }
      IssuedAreTruthful(store, snapshots);
      forall p | 0 <= p < |births| ensures Given(run, ops, p, snapshots[p], births[p], t + 1) {
        if p == given {
          JustGiven(run, ops, p, snapshots[p], t);
        } else {
          GivenLonger(runBefore, run, ops, p, snapshots[p], births[p], t);
        }
      }
      forall i | 0 <= i < t + 1 ensures UsesNamed(run, ops, used[i], born[i], i) {
        UsesStill(runBefore, run, ops, used[i], born[i], i);
      }
    }
    forall t | 0 <= t < |ops| ensures Fenced(run, ops[t], used[t], born[t], t, done[t]) {
      FencedAt(run, ops, used[t], born[t], t, done[t]);
    }
  }

  lemma NoGets()
    ensures Gets([]) == 0
  {
  }

  lemma OneMoreGet(ops: seq<Op>, t: nat)
    requires t < |ops|
    ensures Gets(ops[..t + 1]) == Gets(ops[..t]) + if HandsOut(ops[t]) then 1 else 0
  {
    assert ops[..t + 1][..t] == ops[..t];
  }

  lemma UsesHeld(run: seq<Register>, ops: seq<Op>, snapshots: seq<Snapshot>, births: seq<nat>, t: nat)
    requires t < |run| && t < |ops| && |births| == |snapshots| == Gets(ops[..t])
    requires forall p :: 0 <= p < |births| ==> Given(run, ops, p, snapshots[p], births[p], t)
    ensures var b := if Guarded(ops[t]) && ops[t].position < |births| then births[ops[t].position] else t;
      UsesNamed(run, ops, Used(ops[t], snapshots), b, t)
  {
    hide Faithful, Gets;
    if Guarded(ops[t]) && ops[t].position < |births| {
      assert Given(run, ops, ops[t].position, snapshots[ops[t].position], births[ops[t].position], t);
    }
  }

  lemma JustGiven(run: seq<Register>, ops: seq<Op>, position: nat, s: Snapshot, t: nat)
    requires t + 1 < |run| && t < |ops| && HandsOut(ops[t]) && Gets(ops[..t]) == position
    requires Shows(run[t + 1], ops[t].key, s) && Faithful(run[t + 1], SeenOf(s))
    ensures Given(run, ops, position, s, t + 1, t + 1)
  {
    hide Faithful, Gets, Shows;
  }

  lemma GivenLonger(run: seq<Register>, run': seq<Register>, ops: seq<Op>, position: nat, s: Snapshot, born: nat,
                    t: nat)
    requires |run| == t + 1 && run <= run' && |run'| == t + 2 && t < |ops|
    requires Given(run, ops, position, s, born, t) && Faithful(run'[t + 1], SeenOf(s))
    ensures Given(run', ops, position, s, born, t + 1)
  {
    hide Faithful, Gets, Shows;
    assert forall u :: 0 <= u <= t ==> run'[u] == run[u];
  }

  lemma UsesStill(run: seq<Register>, run': seq<Register>, ops: seq<Op>, used: Snapshot, born: nat, t: nat)
    requires t < |run| && run <= run' && t < |ops| && UsesNamed(run, ops, used, born, t)
    ensures UsesNamed(run', ops, used, born, t)
  {
    hide Faithful, Gets, Shows;
    assert forall u :: 0 <= u <= t ==> run'[u] == run[u];
  }

  lemma FencedAt(run: seq<Register>, ops: seq<Op>, snapshot: Snapshot, born: nat, t: nat, ok: bool)
    requires IsRun(run) && t + 1 < |run| && t < |ops| && Explains(run[t], run[t + 1], ops[t], snapshot, ok)
    requires UsesNamed(run, ops, snapshot, born, t)
    ensures Fenced(run, ops[t], snapshot, born, t, ok)
  {
    hide Faithful, Next, Explains, Gets, Shows;
    if Guarded(ops[t]) && snapshot.loaded {
      StaleCallFails(run, ops[t], snapshot, born, t, ok);
    }
  }

  lemma IssuedAreTruthful(store: ReplayStore, snapshots: seq<Snapshot>)
    requires store.Valid() && forall s :: s in snapshots ==> s in store.issued
    ensures forall p :: 0 <= p < |snapshots| ==> Faithful(store.Abs(), SeenOf(snapshots[p]))
  {
    hide Faithful, Register.Valid, Positive, RegisterOf;
    forall p | 0 <= p < |snapshots| ensures Faithful(store.Abs(), SeenOf(snapshots[p])) {
      assert snapshots[p] in snapshots;
    }
  }

  /** A read and a publication guarded by it, which goes through: on the branch that was seen if it continues it. */
  method ReadAndPublish(store: ReplayStore, key: Key, items: Chain, now: int) returns (snapshot: Snapshot, ok: bool)
    requires store.Valid() && key != "" && items != []
    modifies store
    ensures store.Valid() && ok && snapshot in store.issued
    ensures key in store.entries ==>
      && store.entries[key].items == items && !store.entries[key].deleted && store.entries[key].timestamp == now
      && store.entries[key].revision > snapshot.revision
      && (snapshot.items <= items ==> store.entries[key].branch == snapshot.branch)
    ensures old(|store.entries|) < store.maxEntries ==> key in store.entries && |store.entries| <= store.maxEntries
  {
    hide Next, Faithful, Register.Valid, Positive, CellsOf, Below, Survivors;
    var chain, found;
    chain, snapshot, found := store.Get(key, now);
    CountWith(old(store.entries), key, store.entries[key]);
    store.StoredIsPositive(key);
    ghost var branch := NewBranch(store.entries, store.nextBranch, key, snapshot, items);
    CountWith(store.entries, key, Entry(items, now, store.nextRevision + 1, branch, false));
    ok := store.ReplaceIfUnchanged(key, snapshot, items, now);
  }

  /** A read, a publication guarded by it and another read: the publication goes through and is what is read. */
  method PublishedIsRead(store: ReplayStore, key: Key, items: Chain, now: int)
    returns (ok: bool, found: bool, read: Chain)
    requires store.Valid() && key != "" && items != [] && store.ttl >= 0
    modifies store
    ensures ok && (found ==> read == items)
    ensures old(|store.entries|) < store.maxEntries ==> found
  {
    hide Next, Faithful, Register.Valid, Positive, CellsOf, Below, Survivors;
    var snapshot;
    snapshot, ok := ReadAndPublish(store, key, items, now);
    read, snapshot, found := store.Get(key, now);
  }

  /**
   Two publications guarded by one snapshot, the first of which continues what was seen: the second goes through exactly
   if it continues the first, and then both are on the branch that was seen.
   */
  method SecondMustContinue(store: ReplayStore, key: Key, first: Chain, second: Chain, now: int)
    returns (snapshot: Snapshot, ok: bool, again: bool)
    requires store.Valid() && key != "" && first != [] && second != []
    requires |store.entries| < store.maxEntries
    modifies store
    ensures ok
    ensures snapshot.items <= first ==> (again <==> first <= second)
    ensures snapshot.items <= first && again ==>
      key in store.entries && store.entries[key].items == second && store.entries[key].branch == snapshot.branch
  {
    hide Next, Faithful, Register.Valid, Positive, CellsOf, Below, Survivors;
    snapshot, ok := ReadAndPublish(store, key, first, now);
    store.StoredIsPositive(key);
    ghost var branch := NewBranch(store.entries, store.nextBranch, key, snapshot, second);
    CountWith(store.entries, key, Entry(second, now, store.nextRevision + 1, branch, false));
    again := store.ReplaceIfUnchanged(key, snapshot, second, now);
  }

  /** For instance: a publication guarded by a snapshot that was taken before a removal does nothing. */
  method RemovedIsFenced(store: ReplayStore, key: Key, items: Chain, now: int) returns (ok: bool)
    requires store.Valid() && key != ""
    modifies store
    ensures !ok
  {
    hide Next, Faithful, Register.Valid, Positive, CellsOf, Below, RegisterOf;
    var ops := [GetOp(key, now), RemoveOp(key, now), ReplaceOp(key, 0, items, now)];
    var used, done, born, run := Drive(store, ops);
    assert ops[..1][..0] == [] && ops[..2][..1] == ops[..1];
    assert Gets(ops[..0]) == 0 && Gets(ops[..1]) == 1 && Gets(ops[..2]) == 1;
    assert UsesNamed(run, ops, used[2], born[2], 2);
    assert HandsOut(ops[born[2] - 1]) && born[2] == 1;
    assert Explains(run[1], run[2], ops[1], used[1], done[1]);
    FaithfulBranch(run[1], SeenOf(used[2]));
    assert !run[2].Holds(key, used[2].branch);
    assert Fenced(run, ops[2], used[2], born[2], 2, done[2]);
    return done[2];
  }

  lemma FaithfulBranch(r: Register, seen: Seen)
    requires Faithful(r, seen)
    ensures seen.branch in r.branches
  {
  }
}
