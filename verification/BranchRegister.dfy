/**
 The replay state of all conversations as an abstract register: per key one cell with a revision, a branch and a
 chain of items. The local store and the Home register both refine the step relation below, so what is proved of
 its runs holds of theirs.
 */
module BranchRegister {
  import opened Bytes

  type Key = string

  type Chain = seq<ByteString>

  datatype Cell = Cell(revision: nat, branch: nat, deleted: bool, items: Chain)

  /** `revisions` and `branches` are the identifiers that have been used so far. */
  datatype Register = Register(cells: map<Key, Cell>, revisions: set<nat>, branches: set<nat>)
  {
    ghost predicate Valid() {
      && (forall k :: k in cells ==>
        cells[k].revision in revisions && cells[k].branch in branches && (cells[k].deleted ==> cells[k].items == []))
      && (forall j, k :: j in cells && k in cells && j != k ==>
        cells[j].revision != cells[k].revision && cells[j].branch != cells[k].branch)
    }

    predicate Holds(k: Key, branch: nat) {
      k in cells && cells[k].branch == branch
    }

    predicate AtRevision(k: Key, revision: nat) {
      k in cells && cells[k].revision == revision
    }
  }

  /** A cell made from scratch, on a branch that was never used. */
  predicate Renewed(r: Register, r': Register, c': Cell) {
    c'.revision in r'.revisions - r.revisions && c'.branch in r'.branches - r.branches
  }

  /** A published chain that continues the one before it on the same branch. */
  predicate Extended(r: Register, r': Register, c: Cell, c': Cell) {
    && c'.revision in r'.revisions - r.revisions
    && c'.branch == c.branch && !c'.deleted && c.items <= c'.items
  }

  /** Each cell stays, is extended, is renewed or goes away; identifiers are never taken back. */
  ghost predicate Next(r: Register, r': Register) {
    && r'.Valid()
    && r.revisions <= r'.revisions && r.branches <= r'.branches
    && forall k :: k in r'.cells ==>
      || (k in r.cells && r'.cells[k] == r.cells[k])
      || (k in r.cells && Extended(r, r', r.cells[k], r'.cells[k]))
      || Renewed(r, r', r'.cells[k])
  }

  /** Several steps taken under one lock are one step. */
  lemma NextTransitive(r: Register, r': Register, r'': Register)
    requires Next(r, r') && Next(r', r'')
    ensures Next(r, r'')
  {
  }

  ghost predicate IsRun(run: seq<Register>) {
    && |run| > 0
    && run[0].Valid()
    && forall i :: 0 <= i < |run| - 1 ==> Next(run[i], run[i + 1])
  }

  lemma {:induction false} RunValid(run: seq<Register>, i: nat)
    requires IsRun(run) && i < |run|
    ensures run[i].Valid()
  {
    if i > 0 {
      assert Next(run[i - 1], run[i - 1 + 1]);
    }
  }

  lemma {:induction false} UsedGrows(run: seq<Register>, i: nat, j: nat)
    requires IsRun(run) && i <= j < |run|
    ensures run[i].revisions <= run[j].revisions && run[i].branches <= run[j].branches
    decreases j
  {
    if i < j {
      UsedGrows(run, i, j - 1);
      assert Next(run[j - 1], run[j - 1 + 1]);
    }
  }

  /** A branch that has left its key never comes back. */
  lemma {:induction false} BranchGone(run: seq<Register>, i: nat, j: nat, k: Key, branch: nat)
    requires IsRun(run) && i <= j < |run|
    requires branch in run[i].branches && !run[i].Holds(k, branch)
    ensures !run[j].Holds(k, branch)
    decreases j
  {
    if i < j {
      BranchGone(run, i, j - 1, k, branch);
      UsedGrows(run, i, j - 1);
      assert Next(run[j - 1], run[j - 1 + 1]);
    }
  }

  /** A revision that has left its key never comes back. */
  lemma {:induction false} RevisionGone(run: seq<Register>, i: nat, j: nat, k: Key, revision: nat)
    requires IsRun(run) && i <= j < |run|
    requires revision in run[i].revisions && !run[i].AtRevision(k, revision)
    ensures !run[j].AtRevision(k, revision)
    decreases j
  {
    if i < j {
      RevisionGone(run, i, j - 1, k, revision);
      UsedGrows(run, i, j - 1);
      assert Next(run[j - 1], run[j - 1 + 1]);
    }
  }

  /**
   Chains on a branch only grow: of two chains stored at different times under one key and one branch, the earlier
   is a prefix of the later, and the later is live.
   */
  lemma {:induction false} ChainsOnlyGrow(run: seq<Register>, i: nat, j: nat, k: Key)
    requires IsRun(run) && i <= j < |run|
    requires k in run[i].cells && !run[i].cells[k].deleted
    requires run[j].Holds(k, run[i].cells[k].branch)
    ensures !run[j].cells[k].deleted && run[i].cells[k].items <= run[j].cells[k].items
    decreases j
  {
    if i < j {
      var branch := run[i].cells[k].branch;
      RunValid(run, i);
      UsedGrows(run, i, j - 1);
      assert Next(run[j - 1], run[j - 1 + 1]);
      assert run[j - 1].Holds(k, branch);
      ChainsOnlyGrow(run, i, j - 1, k);
    }
  }

  // ---------- Steps that write one cell ----------

  /** All cells but the one under `k` are kept or dropped; that one, if kept, is `c`. */
  ghost predicate Put(r: Register, r': Register, k: Key, c: Cell) {
    && (forall j :: j in r'.cells && j != k ==> j in r.cells && r'.cells[j] == r.cells[j])
    && (k in r'.cells ==> r'.cells[k] == c)
    && c.revision in r'.revisions - r.revisions && c.branch in r'.branches
    && r.revisions <= r'.revisions && r.branches <= r'.branches
    && (c.deleted ==> c.items == [])
  }

  lemma PutFresh(r: Register, r': Register, k: Key, c: Cell)
    requires r.Valid() && Put(r, r', k, c) && c.branch !in r.branches
    ensures Next(r, r')
  {
  }

  lemma PutExtension(r: Register, r': Register, k: Key, c: Cell)
    requires r.Valid() && Put(r, r', k, c)
    requires k in r.cells && c.branch == r.cells[k].branch && !c.deleted && r.cells[k].items <= c.items
    ensures Next(r, r')
  {
  }

  // ---------- Snapshots ----------

  /** What a reader remembers of the cell that guarded its request. */
  datatype Seen = Seen(revision: nat, branch: nat, items: Chain)

  predicate Prefix(a: Chain, b: Chain) {
    a <= b
  }

  /** When a publication guarded by `seen` may go ahead. */
  predicate CanReplace(r: Register, k: Key, seen: Seen, items: Chain) {
    || r.AtRevision(k, seen.revision)
    || (r.Holds(k, seen.branch) && !r.cells[k].deleted && Prefix(r.cells[k].items, items))
  }

  predicate CanDelete(r: Register, k: Key, seen: Seen) {
    r.AtRevision(k, seen.revision)
  }

  /** The revision seen belongs to the branch and chain seen, wherever it is still stored. */
  ghost predicate Faithful(r: Register, seen: Seen) {
    && seen.revision in r.revisions && seen.branch in r.branches
    && forall k :: r.AtRevision(k, seen.revision) ==> r.cells[k].branch == seen.branch && r.cells[k].items == seen.items
  }

  /** A snapshot taken of a stored cell is truthful. */
  lemma FaithfulNow(r: Register, k: Key)
    requires r.Valid() && k in r.cells
    ensures Faithful(r, Seen(r.cells[k].revision, r.cells[k].branch, r.cells[k].items))
  {
  }

  lemma FaithfulNext(r: Register, r': Register, seen: Seen)
    requires Next(r, r') && Faithful(r, seen)
    ensures Faithful(r', seen)
  {
    forall k | r'.AtRevision(k, seen.revision)
      ensures r'.cells[k].branch == seen.branch && r'.cells[k].items == seen.items
    {
      assert r.AtRevision(k, seen.revision);
    }
  }

  lemma {:induction false} FaithfulRun(run: seq<Register>, i: nat, j: nat, seen: Seen)
    requires IsRun(run) && i <= j < |run| && Faithful(run[i], seen)
    ensures Faithful(run[j], seen)
    decreases j
  {
    if i < j {
      FaithfulRun(run, i, j - 1, seen);
      assert Next(run[j - 1], run[j - 1 + 1]);
      FaithfulNext(run[j - 1], run[j - 1 + 1], seen);
    }
  }

  /**
   Stale snapshots are fenced forever: once the branch seen has left the key, by deletion, eviction, expiry, a
   clear, an overwrite or a move to a fresh branch, nothing guarded by the snapshot ever succeeds again.
   */
  lemma StaleForever(run: seq<Register>, i: nat, j: nat, k: Key, seen: Seen, items: Chain)
    requires IsRun(run) && i <= j < |run|
    requires Faithful(run[i], seen) && !run[i].Holds(k, seen.branch)
    ensures !CanReplace(run[j], k, seen, items) && !CanDelete(run[j], k, seen)
  {
    BranchGone(run, i, j, k, seen.branch);
    FaithfulRun(run, i, j, seen);
  }

  /** A guarded deletion is stricter: any newer revision under the key fences it. */
  lemma DeleteFencedForever(run: seq<Register>, i: nat, j: nat, k: Key, seen: Seen)
    requires IsRun(run) && i <= j < |run|
    requires seen.revision in run[i].revisions && !run[i].AtRevision(k, seen.revision)
    ensures !CanDelete(run[j], k, seen)
  {
    RevisionGone(run, i, j, k, seen.revision);
  }
}
