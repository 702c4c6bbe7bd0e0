/**
 The Home register behind the Antigravity replay cache, shared by many processes: reads, conditional and
 unconditional writes and expiry of single keys, with each client's compare-and-swap retry loop cut at its calls.
 Every interleaving of these steps is shown to be a run of the branch register.

 Values are taken as decoded: the JSON encoding is injective, so comparing raw bytes is comparing values. Every
 value written here carries a generation name that was never used before.
 */
module AntigravityHome {
  import opened BranchRegister

  const MAX_ATTEMPTS: nat := 4

  /** A stored value: one with the generation marker, or an older list of items without it. */
  datatype Raw =
    | Marked(generation: nat, branch: nat, deleted: bool, items: Chain)
    | Legacy(items: Chain)

  /** What a compare-and-swap expects: nothing stored, a value, or (for an oversized value) what never matches. */
  datatype Expected = Absent | Value(raw: Raw) | Unmatchable

  /** Branch 0 stands for the empty name, which no generation has. */
  datatype Snapshot = Snapshot(expected: Expected, branch: nat, items: Chain)

  predicate Live(raw: Raw) {
    raw.Marked? && !raw.deleted
  }

  function BranchOf(raw: Raw): nat {
    if raw.Marked? then raw.branch else 0
  }

  /** What a successful read hands out: the chain only of a live value. */
  function SnapshotOf(raw: Raw): Snapshot {
    Snapshot(Value(raw), BranchOf(raw), if raw.Marked? && raw.deleted then [] else raw.items)
  }

  /** A guarded publication between two of its calls: about to swap, or about to read the value that beat it. */
  datatype Job = Job(key: Key, snapshot: Snapshot, items: Chain, branch: nat, newBranch: bool, expected: Expected,
                     attempt: nat, reloading: bool)

  datatype Home = Home(values: map<Key, Raw>, generations: set<nat>, branches: set<nat>, drawn: nat,
                       snapshots: set<Snapshot>, jobs: map<nat, Job>)

  predicate Matches(values: map<Key, Raw>, key: Key, expected: Expected) {
    match expected
    case Absent => key !in values
    case Value(raw) => key in values && values[key] == raw
    case Unmatchable => false
  }

  datatype Event =
    | Read(key: Key)
    | Reserve(key: Key, generation: nat, branch: nat)
    | Overwrite(key: Key, generation: nat, branch: nat, deleted: bool, items: Chain)
    | Expire(key: Key)
    | GuardedDelete(key: Key, snapshot: Snapshot, generation: nat, branch: nat)
    | Begin(id: nat, key: Key, snapshot: Snapshot, items: Chain, branch: nat)
    | Swap(id: nat, generation: nat)
    | Reload(id: nat)
    | GiveUp(id: nat)

  /** A name never used before: generations of values and names of branches are drawn from one source. */
  predicate NewName(h: Home, name: nat) {
    name > 0 && name >= h.drawn
  }

  /** Storing a freshly marked value under a key. */
  function Write(h: Home, key: Key, generation: nat, branch: nat, deleted: bool, items: Chain): Home {
    h.(values := h.values[key := Marked(generation, branch, deleted, items)],
       generations := h.generations + {generation},
       branches := h.branches + {branch})
  }

  function Draw(h: Home, name: nat): Home {
    if name < h.drawn then h else h.(drawn := name + 1)
  }

  /** Whether the value that beat a publication is one it may replace instead. */
  predicate Retryable(job: Job, raw: Raw) {
    Live(raw) && job.snapshot.branch != 0 && raw.branch == job.snapshot.branch && Prefix(raw.items, job.items)
  }

  ghost predicate Step(h: Home, h': Home, e: Event) {
    match e
    case Read(key) => key in h.values && h' == h.(snapshots := h.snapshots + {SnapshotOf(h.values[key])})
    case Reserve(key, generation, branch) =>
      && key !in h.values && NewName(h, generation) && NewName(h, branch) && generation != branch
      && var w := Draw(Draw(Write(h, key, generation, branch, true, []), generation), branch);
         h' == w.(snapshots := h.snapshots + {SnapshotOf(Marked(generation, branch, true, []))})
    case Overwrite(key, generation, branch, deleted, items) =>
      && NewName(h, generation) && NewName(h, branch) && generation != branch && (deleted <==> items == [])
      && h' == Draw(Draw(Write(h, key, generation, branch, deleted, items), generation), branch)
    case Expire(key) => h' == h.(values := h.values - {key})
    case GuardedDelete(key, snapshot, generation, branch) =>
      && Usable(h, snapshot) && NewName(h, generation) && NewName(h, branch) && generation != branch
      && h' == if Matches(h.values, key, snapshot.expected)
               then Draw(Draw(Write(h, key, generation, branch, true, []), generation), branch) else h
    case Begin(id, key, snapshot, items, branch) =>
      && id !in h.jobs && Usable(h, snapshot) && items != []
      && var newBranch := snapshot.branch == 0 || !Prefix(snapshot.items, items);
         && (if newBranch then NewName(h, branch) else branch == snapshot.branch)
         && var job := Job(key, snapshot, items, branch, newBranch, snapshot.expected, 0, false);
            h' == Draw(h, branch).(jobs := h.jobs[id := job])
    case Swap(id, generation) =>
      && id in h.jobs && !h.jobs[id].reloading && NewName(h, generation)
      && var job := h.jobs[id];
         h' == if Matches(h.values, job.key, job.expected)
               then
                 var w := Write(h, job.key, generation, job.branch, false, job.items);
                 Draw(w, generation).(jobs := h.jobs - {id})
               else h.(jobs := h.jobs[id := job.(reloading := true)])
    case Reload(id) =>
      && id in h.jobs && h.jobs[id].reloading
      && var job := h.jobs[id];
         if job.key in h.values && Retryable(job, h.values[job.key]) && job.attempt + 1 < MAX_ATTEMPTS
         then
           var next := job.(expected := Value(h.values[job.key]), attempt := job.attempt + 1, reloading := false);
           h' == h.(jobs := h.jobs[id := next])
         else h' == h.(jobs := h.jobs - {id})
    case GiveUp(id) => id in h.jobs && h' == h.(jobs := h.jobs - {id})
  }

  /** The snapshots a client can hold: one it was handed, or one of a failed or oversized read. */
  predicate Usable(h: Home, snapshot: Snapshot) {
    snapshot in h.snapshots || (!snapshot.expected.Value? && snapshot.branch == 0 && snapshot.items == [])
  }

  // ---------- The register behind the values ----------

  function CellOf(raw: Raw): Cell
    requires raw.Marked?
  {
    Cell(raw.generation, raw.branch, raw.deleted, raw.items)
  }

  function Abs(h: Home): Register {
    Register(map k | k in h.values && h.values[k].Marked? :: CellOf(h.values[k]), h.generations, h.branches)
  }

  // ---------- What every step keeps ----------

  /** A marked value that was once stored: it alone has its generation, and its branch has since only grown. */
  ghost predicate Witnessed(h: Home, raw: Raw)
    requires raw.Marked?
  {
    && raw.generation in h.generations && raw.branch in h.branches && raw.branch > 0
    && (raw.deleted ==> raw.items == [])
    && forall k :: k in h.values && h.values[k].Marked? ==>
      && (h.values[k].generation == raw.generation ==> h.values[k] == raw)
      && (h.values[k].branch == raw.branch && !raw.deleted ==> !h.values[k].deleted && raw.items <= h.values[k].items)
  }

  ghost predicate GoodSnapshot(h: Home, s: Snapshot) {
    match s.expected
    case Value(raw) => s == SnapshotOf(raw) && (raw.Marked? ==> Witnessed(h, raw))
    case _ => s.branch == 0 && s.items == []
  }

  /**
   A publication in flight: on its first attempt it expects what its snapshot saw; on a later one it stays on the
   snapshot's branch and expects a live chain of that branch that it continues.
   */
  ghost predicate GoodJob(h: Home, job: Job) {
    && GoodSnapshot(h, job.snapshot)
    && job.items != [] && 0 < job.branch < h.drawn
    && (if job.newBranch
        then job.branch !in h.branches && (job.snapshot.branch == 0 || !Prefix(job.snapshot.items, job.items))
        else job.branch == job.snapshot.branch && Prefix(job.snapshot.items, job.items))
    && (if job.attempt == 0 then job.expected == job.snapshot.expected
        else
          && !job.newBranch && job.expected.Value?
          && Retryable(job, job.expected.raw) && Witnessed(h, job.expected.raw))
  }

  ghost predicate Inv(h: Home) {
    && Abs(h).Valid()
    && NamesDrawn(h)
    && SnapshotsGood(h)
    && JobsGood(h)
  }

  /** One marked value was stored: on a branch never used, or continuing the live or empty chain it replaces. */
  ghost predicate Wrote(h: Home, h': Home, key: Key, raw: Raw) {
    && raw.Marked? && raw.branch > 0 && (raw.deleted ==> raw.items == [])
    && raw.generation !in h.generations
    && h'.values == h.values[key := raw]
    && h'.generations == h.generations + {raw.generation} && h'.branches == h.branches + {raw.branch}
    && (raw.branch in h.branches ==>
      && key in h.values && h.values[key].Marked? && h.values[key].branch == raw.branch
      && !raw.deleted && h.values[key].items <= raw.items)
  }

  lemma WroteNext(h: Home, h': Home, key: Key, raw: Raw)
    requires Abs(h).Valid() && Wrote(h, h', key, raw)
    ensures Next(Abs(h), Abs(h'))
  {
    var r, r' := Abs(h), Abs(h');
    assert Put(r, r', key, CellOf(raw));
    if raw.branch in h.branches {
      PutExtension(r, r', key, CellOf(raw));
    } else {
      PutFresh(r, r', key, CellOf(raw));
    }
  }

  lemma WitnessedKept(h: Home, h': Home, key: Key, raw: Raw, earlier: Raw)
    requires Wrote(h, h', key, raw) && earlier.Marked? && Witnessed(h, earlier)
    ensures Witnessed(h', earlier)
  {
  }

  lemma WitnessedNow(h: Home, key: Key)
    requires Abs(h).Valid() && key in h.values && h.values[key].Marked? && h.values[key].branch > 0
    ensures Witnessed(h, h.values[key])
  {
    var r, raw := Abs(h), h.values[key];
    forall k | k in h.values && h.values[k].Marked? && k != key
      ensures h.values[k].generation != raw.generation && h.values[k].branch != raw.branch
    {
      assert k in r.cells && key in r.cells;
    }
    assert key in r.cells;
  }

  ghost predicate Fewer(h: Home, h': Home) {
    && h'.values.Keys <= h.values.Keys && (forall k :: k in h'.values ==> h'.values[k] == h.values[k])
    && h'.generations == h.generations && h'.branches == h.branches
  }

  lemma FewerNext(h: Home, h': Home)
    requires Abs(h).Valid() && Fewer(h, h')
    ensures Next(Abs(h), Abs(h'))
  {
    assert forall k :: k in Abs(h').cells ==> k in Abs(h).cells && Abs(h').cells[k] == Abs(h).cells[k];
  }

  lemma SnapshotKept(h: Home, h': Home, key: Key, raw: Raw, s: Snapshot)
    requires GoodSnapshot(h, s) && (Fewer(h, h') || Wrote(h, h', key, raw))
    ensures GoodSnapshot(h', s)
  {
    if s.expected.Value? && s.expected.raw.Marked? && Wrote(h, h', key, raw) {
      WitnessedKept(h, h', key, raw, s.expected.raw);
    }
  }

  lemma JobKept(h: Home, h': Home, key: Key, raw: Raw, job: Job)
    requires GoodJob(h, job) && h.drawn <= h'.drawn
    requires Fewer(h, h') || (Wrote(h, h', key, raw) && (job.newBranch ==> job.branch != raw.branch))
    ensures GoodJob(h', job)
  {
    SnapshotKept(h, h', key, raw, job.snapshot);
    if job.attempt > 0 && Wrote(h, h', key, raw) {
      WitnessedKept(h, h', key, raw, job.expected.raw);
    }
  }

  ghost predicate SnapshotsGood(h: Home) {
    forall s :: s in h.snapshots ==> GoodSnapshot(h, s)
  }

  ghost predicate JobsGood(h: Home) {
    && (forall id :: id in h.jobs ==> GoodJob(h, h.jobs[id]))
    && (forall i, j :: i in h.jobs && j in h.jobs && i != j && h.jobs[i].newBranch && h.jobs[j].newBranch ==>
      h.jobs[i].branch != h.jobs[j].branch)
  }

  /** Old snapshots and the publications that go on are untouched by one write or by values going away. */
  lemma OthersKept(h: Home, h': Home, key: Key, raw: Raw)
    requires SnapshotsGood(h) && JobsGood(h) && h.drawn <= h'.drawn
    requires h'.snapshots == h.snapshots && h'.jobs.Keys <= h.jobs.Keys
    requires forall id :: id in h'.jobs ==> h'.jobs[id] == h.jobs[id]
    requires
      || Fewer(h, h')
      || (&& Wrote(h, h', key, raw)
          && forall id :: id in h'.jobs && h'.jobs[id].newBranch ==> h'.jobs[id].branch != raw.branch)
    ensures SnapshotsGood(h') && JobsGood(h')
  {
    hide GoodSnapshot, GoodJob, Wrote;
    forall s | s in h'.snapshots ensures GoodSnapshot(h', s) {
      SnapshotKept(h, h', key, raw, s);
    }
    forall id | id in h'.jobs ensures GoodJob(h', h'.jobs[id]) {
      JobKept(h, h', key, raw, h'.jobs[id]);
    }
  }

  ghost predicate NamesDrawn(h: Home) {
    forall name :: name in h.generations || name in h.branches ==> 0 < name < h.drawn
  }

  /** The steps that store a value on a branch drawn for it. */
  lemma FreshWrite(h: Home, h': Home, key: Key, generation: nat, branch: nat, deleted: bool, items: Chain)
    requires Inv(h) && NewName(h, generation) && NewName(h, branch) && generation != branch && (deleted ==> items == [])
    requires h' == Draw(Draw(Write(h, key, generation, branch, deleted, items), generation), branch)
    ensures Inv(h') && Next(Abs(h), Abs(h'))
    ensures h'.values[key] == Marked(generation, branch, deleted, items) && Witnessed(h', h'.values[key])
  {
    var raw := Marked(generation, branch, deleted, items);
    assert Wrote(h, h', key, raw);
    WroteNext(h, h', key, raw);
    assert forall id :: id in h.jobs ==> GoodJob(h, h.jobs[id]);
    OthersKept(h, h', key, raw);
    WitnessedNow(h', key);
    assert NamesDrawn(h');
  }

  lemma SwapWrite(h: Home, h': Home, id: nat, generation: nat)
    requires Inv(h) && id in h.jobs && NewName(h, generation)
    requires Matches(h.values, h.jobs[id].key, h.jobs[id].expected)
    requires var job := h.jobs[id];
      h' == Draw(Write(h, job.key, generation, job.branch, false, job.items), generation).(jobs := h.jobs - {id})
    ensures Inv(h') && Next(Abs(h), Abs(h'))
  {
    var job := h.jobs[id];
    var raw := Marked(generation, job.branch, false, job.items);
    assert GoodJob(h, job);
    if !job.newBranch {
      SwapContinues(h, job);
    }
    assert Wrote(h, h', job.key, raw);
    WroteNext(h, h', job.key, raw);
    assert forall i :: i in h'.jobs ==> GoodJob(h, h.jobs[i]);
    OthersKept(h, h', job.key, raw);
    assert NamesDrawn(h');
  }

  /** A publication that stays on its branch replaces a chain of that branch which it continues. */
  lemma SwapContinues(h: Home, job: Job)
    requires GoodJob(h, job) && Matches(h.values, job.key, job.expected) && !job.newBranch
    ensures job.key in h.values && h.values[job.key].Marked? && h.values[job.key].branch == job.branch
    ensures h.values[job.key].items <= job.items
  {
  }

  /** The steps that store nothing and start nothing. */
  lemma QuietStep(h: Home, h': Home)
    requires Inv(h) && Fewer(h, h') && h'.drawn == h.drawn && h'.snapshots == h.snapshots
    requires h'.jobs.Keys <= h.jobs.Keys && forall id :: id in h'.jobs ==> h'.jobs[id] == h.jobs[id]
    ensures Inv(h') && Next(Abs(h), Abs(h'))
  {
    hide GoodSnapshot, GoodJob, SnapshotsGood, JobsGood, Next, Register.Valid, Abs;
    FewerNext(h, h');
    NextValid(Abs(h), Abs(h'));
    OthersKept(h, h', "", Legacy([]));
  }

  lemma NextValid(r: Register, r': Register)
    requires Next(r, r')
    ensures r'.Valid()
  {
  }

  /** Handing out a snapshot of a value once stored. */
  lemma SnapshotStep(h: Home, h': Home, raw: Raw)
    requires Inv(h) && h' == h.(snapshots := h.snapshots + {SnapshotOf(raw)})
    requires raw.Marked? ==> Witnessed(h, raw)
    ensures Inv(h') && Next(Abs(h), Abs(h'))
  {
    hide Next, Register.Valid;
    assert Abs(h') == Abs(h);
    FewerNext(h, h');
    forall s | s in h'.snapshots ensures GoodSnapshot(h', s) {
      if s in h.snapshots {
        SnapshotKept(h, h', "", Legacy([]), s);
      }
    }
    forall id | id in h'.jobs ensures GoodJob(h', h'.jobs[id]) {
      JobKept(h, h', "", Legacy([]), h'.jobs[id]);
    }
  }

  /** A publication starts, or goes on in another state of its own. */
  lemma JobStep(h: Home, h': Home, id: nat, job: Job)
    requires Inv(h) && h'.jobs == h.jobs[id := job] && h.drawn <= h'.drawn
    requires h'.values == h.values && h'.snapshots == h.snapshots
    requires h'.generations == h.generations && h'.branches == h.branches
    requires GoodJob(h', job)
    requires forall i :: i in h.jobs && i != id && h.jobs[i].newBranch && job.newBranch ==>
      h.jobs[i].branch != job.branch
    ensures Inv(h') && Next(Abs(h), Abs(h'))
  {
    hide Next, Register.Valid;
    assert Abs(h') == Abs(h);
    FewerNext(h, h');
    forall s | s in h'.snapshots ensures GoodSnapshot(h', s) {
      SnapshotKept(h, h', "", Legacy([]), s);
    }
    forall i | i in h'.jobs ensures GoodJob(h', h'.jobs[i]) {
      if i != id {
        JobKept(h, h', "", Legacy([]), h.jobs[i]);
      }
    }
    assert NamesDrawn(h');
  }

  lemma BeginStep(h: Home, h': Home, id: nat, key: Key, snapshot: Snapshot, items: Chain, branch: nat)
    requires Inv(h) && Step(h, h', Begin(id, key, snapshot, items, branch))
    ensures Inv(h') && Next(Abs(h), Abs(h'))
  {
    var newBranch := snapshot.branch == 0 || !Prefix(snapshot.items, items);
    var job := Job(key, snapshot, items, branch, newBranch, snapshot.expected, 0, false);
    assert GoodSnapshot(h, snapshot);
    SnapshotKept(h, h', "", Legacy([]), snapshot);
    assert branch < h'.drawn by {
      if !newBranch {
        assert branch in h.branches;
      }
    }
    assert forall i :: i in h.jobs ==> GoodJob(h, h.jobs[i]);
    JobStep(h, h', id, job);
  }

  /** A value that beats a publication on the snapshot's branch has grown from what the snapshot saw. */
  lemma BranchHasGrown(h: Home, job: Job)
    requires GoodJob(h, job) && job.key in h.values && Retryable(job, h.values[job.key])
    ensures Prefix(job.snapshot.items, job.items)
  {
    assert Witnessed(h, job.snapshot.expected.raw);
  }

  /** So a publication that opened a new branch, not extending its snapshot, never finds anything to retry on. */
  lemma FreshNeverRetries(h: Home, job: Job)
    requires GoodJob(h, job) && job.newBranch && job.key in h.values
    ensures !Retryable(job, h.values[job.key])
  {
    if Retryable(job, h.values[job.key]) {
      BranchHasGrown(h, job);
    }
  }

  lemma ReloadStep(h: Home, h': Home, id: nat)
    requires Inv(h) && Step(h, h', Reload(id))
    ensures Inv(h') && Next(Abs(h), Abs(h'))
  {
    var job := h.jobs[id];
    assert GoodJob(h, job);
    if job.key in h.values && Retryable(job, h.values[job.key]) && job.attempt + 1 < MAX_ATTEMPTS {
      var raw := h.values[job.key];
      if job.newBranch {
        FreshNeverRetries(h, job);
      }
      WitnessedNow(h, job.key);
      var job' := job.(expected := Value(raw), attempt := job.attempt + 1, reloading := false);
      JobKept(h, h', "", Legacy([]), job);
      assert Witnessed(h', raw);
      JobStep(h, h', id, job');
    } else {
      QuietStep(h, h');
    }
  }

  /** Every step of every client keeps the invariant and is a step of the branch register. */
  lemma StepKeeps(h: Home, h': Home, e: Event)
    requires Inv(h) && Step(h, h', e)
    ensures Inv(h') && Next(Abs(h), Abs(h'))
  {
    hide Inv, Next, GoodSnapshot, GoodJob, Abs, Witnessed;
    match e
    case Read(key) =>
      ReadStep(h, h', key);
    case Reserve(key, generation, branch) =>
      ReserveStep(h, h', key, generation, branch);
    case Overwrite(key, generation, branch, deleted, items) =>
      FreshWrite(h, h', key, generation, branch, deleted, items);
    case Expire(key) =>
      QuietStep(h, h');
    case GuardedDelete(key, snapshot, generation, branch) =>
      if Matches(h.values, key, snapshot.expected) {
        FreshWrite(h, h', key, generation, branch, true, []);
      } else {
        QuietStep(h, h');
      }
    case Begin(id, key, snapshot, items, branch) =>
      BeginStep(h, h', id, key, snapshot, items, branch);
    case Swap(id, generation) =>
      SwapStep(h, h', id, generation);
    case Reload(id) =>
      ReloadStep(h, h', id);
    case GiveUp(id) =>
      QuietStep(h, h');
  }

  lemma ReadStep(h: Home, h': Home, key: Key)
    requires Inv(h) && Step(h, h', Read(key))
    ensures Inv(h') && Next(Abs(h), Abs(h'))
  {
    if h.values[key].Marked? {
      assert key in Abs(h).cells;
      WitnessedNow(h, key);
    }
    SnapshotStep(h, h', h.values[key]);
  }

  lemma ReserveStep(h: Home, h': Home, key: Key, generation: nat, branch: nat)
    requires Inv(h) && Step(h, h', Reserve(key, generation, branch))
    ensures Inv(h') && Next(Abs(h), Abs(h'))
  {
    hide Inv, Next, GoodSnapshot, GoodJob, Abs, Witnessed;
    var w := Draw(Draw(Write(h, key, generation, branch, true, []), generation), branch);
    FreshWrite(h, w, key, generation, branch, true, []);
    SnapshotStep(w, h', Marked(generation, branch, true, []));
    NextTransitive(Abs(h), Abs(w), Abs(h'));
  }

  lemma SwapStep(h: Home, h': Home, id: nat, generation: nat)
    requires Inv(h) && Step(h, h', Swap(id, generation))
    ensures Inv(h') && Next(Abs(h), Abs(h'))
  {
    var job := h.jobs[id];
    if Matches(h.values, job.key, job.expected) {
      SwapWrite(h, h', id, generation);
    } else {
      assert GoodJob(h, job);
      JobKept(h, h', "", Legacy([]), job);
      JobStep(h, h', id, job.(reloading := true));
    }
  }

  /**
   The retry loop acts as one atomic register operation: a swap that succeeds either replaces exactly the value the
   snapshot saw, or continues a live chain of the snapshot's branch; and only the former may open a new branch.
   */
  lemma SwapIsAtomic(h: Home, h': Home, id: nat, generation: nat)
    requires Inv(h) && Step(h, h', Swap(id, generation)) && Matches(h.values, h.jobs[id].key, h.jobs[id].expected)
    ensures var job := h.jobs[id];
      && h'.values == h.values[job.key := Marked(generation, job.branch, false, job.items)]
      && (job.attempt == 0 || !job.newBranch)
      && (|| Matches(h.values, job.key, job.snapshot.expected)
          || (&& job.key in h.values && Live(h.values[job.key])
              && h.values[job.key].branch == job.snapshot.branch == job.branch
              && h.values[job.key].items <= job.items))
  {
    assert GoodJob(h, h.jobs[id]);
  }

  // ---------- Runs ----------

  /** No process has written yet; there may be values left by versions that knew no generations. */
  predicate Init(h: Home) {
    && (forall k :: k in h.values ==> h.values[k].Legacy?)
    && h.generations == {} && h.branches == {} && h.snapshots == {} && h.jobs == map[] && h.drawn == 1
  }

  ghost predicate IsHomeRun(run: seq<Home>, events: seq<Event>) {
    && |run| == |events| + 1
    && Init(run[0])
    && forall i :: 0 <= i < |events| ==> Step(run[i], run[i + 1], events[i])
  }

  lemma {:induction false} RunInv(run: seq<Home>, events: seq<Event>, i: nat)
    requires IsHomeRun(run, events) && i < |run|
    ensures Inv(run[i])
  {
    hide Step, Next;
    if i == 0 {
      assert Abs(run[0]).cells == map[];
    } else {
      RunInv(run, events, i - 1);
      assert Step(run[i - 1], run[i - 1 + 1], events[i - 1]);
      StepKeeps(run[i - 1], run[i - 1 + 1], events[i - 1]);
    }
  }

  /** Every interleaving of clients is a run of the branch register. */
  lemma HomeRefines(run: seq<Home>, events: seq<Event>) returns (registers: seq<Register>)
    requires IsHomeRun(run, events)
    ensures |registers| == |run| && IsRun(registers)
    ensures forall i :: 0 <= i < |run| ==> registers[i] == Abs(run[i])
  {
    hide Inv, Next, Step, Abs;
    registers := seq(|run|, i requires 0 <= i < |run| => Abs(run[i]));
    RunInv(run, events, 0);
    InvValid(run[0]);
    forall i | 0 <= i < |registers| - 1 ensures Next(registers[i], registers[i + 1]) {
      RunInv(run, events, i);
      assert Step(run[i], run[i + 1], events[i]);
      StepKeeps(run[i], run[i + 1], events[i]);
    }
  }

  lemma InvValid(h: Home)
    requires Inv(h)
    ensures Abs(h).Valid()
  {
  }

  /** No item published on a live branch is ever dropped while the branch is in use. */
  lemma HomeChainsOnlyGrow(run: seq<Home>, events: seq<Event>, i: nat, j: nat, k: Key)
    requires IsHomeRun(run, events) && i <= j < |run|
    requires k in run[i].values && Live(run[i].values[k])
    requires k in run[j].values && BranchOf(run[j].values[k]) == run[i].values[k].branch
    ensures Live(run[j].values[k]) && run[i].values[k].items <= run[j].values[k].items
  {
    var registers := HomeRefines(run, events);
    RunInv(run, events, i);
    assert k in Abs(run[i]).cells && run[i].values[k].branch > 0;
    assert run[j].values[k].Marked? && k in Abs(run[j]).cells;
    ChainsOnlyGrow(registers, i, j, k);
  }

  /** Once the branch a snapshot saw has left its key, nothing guarded by the snapshot takes effect there again. */
  lemma HomeStaleForever(run: seq<Home>, events: seq<Event>, i: nat, j: nat, k: Key, s: Snapshot)
    requires IsHomeRun(run, events) && i <= j < |run|
    requires s in run[i].snapshots && s.expected.Value? && s.expected.raw.Marked?
    requires !(k in run[i].values && BranchOf(run[i].values[k]) == s.branch)
    ensures !Matches(run[j].values, k, s.expected)
    ensures forall id :: id in run[j].jobs && run[j].jobs[id].key == k && run[j].jobs[id].snapshot == s ==>
      !Matches(run[j].values, k, run[j].jobs[id].expected)
  {
    var registers := HomeRefines(run, events);
    RunInv(run, events, i);
    RunInv(run, events, j);
    assert GoodSnapshot(run[i], s);
    assert !Abs(run[i]).Holds(k, s.branch);
    BranchGone(registers, i, j, k, s.branch);
    forall id | id in run[j].jobs && run[j].jobs[id].key == k && run[j].jobs[id].snapshot == s
      ensures !Matches(run[j].values, k, run[j].jobs[id].expected)
    {
      assert GoodJob(run[j], run[j].jobs[id]);
      if Matches(run[j].values, k, run[j].jobs[id].expected) {
        MatchHolds(run[j], k, run[j].jobs[id].expected);
      }
    }
    if Matches(run[j].values, k, s.expected) {
      MatchHolds(run[j], k, s.expected);
    }
  }

  /** No step stores a value without a marker. */
  lemma LegacyStep(h: Home, h': Home, e: Event, k: Key)
    requires Step(h, h', e) && k in h'.values && h'.values[k].Legacy?
    ensures k in h.values && h.values[k] == h'.values[k]
  {
  }

  lemma {:induction false} LegacyGone(run: seq<Home>, events: seq<Event>, i: nat, j: nat, k: Key, raw: Raw)
    requires IsHomeRun(run, events) && i <= j < |run| && raw.Legacy?
    requires !(k in run[i].values && run[i].values[k] == raw)
    ensures !(k in run[j].values && run[j].values[k] == raw)
    decreases j
  {
    hide Step;
    if i < j {
      LegacyGone(run, events, i, j - 1, k, raw);
      assert Step(run[j - 1], run[j - 1 + 1], events[j - 1]);
      if k in run[j].values && run[j].values[k].Legacy? {
        LegacyStep(run[j - 1], run[j], events[j - 1], k);
      }
    }
  }

  /**
   A value once seen that has left its key never matches there again, with or without a marker. So a guarded delete
   is fenced for ever by any newer value.
   */
  lemma HomeDeleteFenced(run: seq<Home>, events: seq<Event>, i: nat, j: nat, k: Key, s: Snapshot)
    requires IsHomeRun(run, events) && i <= j < |run|
    requires s in run[i].snapshots && s.expected.Value? && !Matches(run[i].values, k, s.expected)
    ensures !Matches(run[j].values, k, s.expected)
  {
    hide Step, Next;
    var raw := s.expected.raw;
    if raw.Legacy? {
      LegacyGone(run, events, i, j, k, raw);
    } else {
      var registers := HomeRefines(run, events);
      SeenGeneration(run, events, i, k, s);
      RevisionGone(registers, i, j, k, raw.generation);
      MatchRevision(run[j], k, raw);
    }
  }

  lemma SeenGeneration(run: seq<Home>, events: seq<Event>, i: nat, k: Key, s: Snapshot)
    requires IsHomeRun(run, events) && i < |run| && s in run[i].snapshots
    requires s.expected.Value? && s.expected.raw.Marked? && !Matches(run[i].values, k, s.expected)
    ensures s.expected.raw.generation in Abs(run[i]).revisions
    ensures !Abs(run[i]).AtRevision(k, s.expected.raw.generation)
  {
    hide Step, Next;
    RunInv(run, events, i);
    assert GoodSnapshot(run[i], s);
    assert Witnessed(run[i], s.expected.raw);
  }

  /**
   A snapshot of a value without a marker: once that value has left its key, nothing guarded by it takes effect there.
   */
  lemma HomeLegacyStaleForever(run: seq<Home>, events: seq<Event>, i: nat, j: nat, k: Key, s: Snapshot)
    requires IsHomeRun(run, events) && i <= j < |run|
    requires s in run[i].snapshots && s.expected.Value? && s.expected.raw.Legacy?
    requires !(k in run[i].values && run[i].values[k] == s.expected.raw)
    ensures !Matches(run[j].values, k, s.expected)
    ensures forall id :: id in run[j].jobs && run[j].jobs[id].key == k && run[j].jobs[id].snapshot == s ==>
      !Matches(run[j].values, k, run[j].jobs[id].expected)
  {
    hide Step, Next;
    LegacyGone(run, events, i, j, k, s.expected.raw);
    RunInv(run, events, i);
    RunInv(run, events, j);
    forall id | id in run[j].jobs && run[j].jobs[id].key == k && run[j].jobs[id].snapshot == s
      ensures run[j].jobs[id].expected == s.expected
    {
      LegacyNeverRetries(run[j], id);
    }
  }

  /** A publication guarded by such a snapshot has only its first attempt. */
  lemma LegacyNeverRetries(h: Home, id: nat)
    requires Inv(h) && id in h.jobs && h.jobs[id].snapshot.expected.Value? && h.jobs[id].snapshot.expected.raw.Legacy?
    ensures h.jobs[id].expected == h.jobs[id].snapshot.expected
  {
    hide Next;
    assert GoodJob(h, h.jobs[id]) && GoodSnapshot(h, h.jobs[id].snapshot);
  }

  lemma MatchRevision(h: Home, k: Key, raw: Raw)
    requires raw.Marked?
    ensures Matches(h.values, k, Value(raw)) ==> Abs(h).AtRevision(k, raw.generation)
  {
  }

  lemma MatchHolds(h: Home, k: Key, expected: Expected)
    requires Matches(h.values, k, expected) && expected.Value? && expected.raw.Marked?
    ensures Abs(h).Holds(k, expected.raw.branch)
  {
  }
}
