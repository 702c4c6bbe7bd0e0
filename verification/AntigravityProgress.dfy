/**
 What readers of the Home register find and how publications come to their end, told by the events of a run.
 */
module AntigravityProgress {
  import opened BranchRegister
  import opened AntigravityHome

  /** The event may change what is stored under the key. */
  predicate Touches(h: Home, e: Event, k: Key) {
    match e
    case Read(_) => false
    case Reserve(key, _, _) => key == k
    case Overwrite(key, _, _, _, _) => key == k
    case Expire(key) => key == k
    case GuardedDelete(key, _, _, _) => key == k
    case Begin(_, _, _, _, _) => false
    case Swap(id, _) => id in h.jobs && h.jobs[id].key == k
    case Reload(_) => false
    case GiveUp(_) => false
  }

  ghost predicate Untouched(run: seq<Home>, events: seq<Event>, i: nat, j: nat, k: Key)
    requires |run| == |events| + 1 && j <= |events|
  {
    forall t :: i <= t < j ==> !Touches(run[t], events[t], k)
  }

  predicate SameAt(h: Home, h': Home, k: Key) {
    (k in h.values <==> k in h'.values) && (k in h.values ==> h.values[k] == h'.values[k])
  }

  lemma UntouchedStep(h: Home, h': Home, e: Event, k: Key)
    requires Step(h, h', e) && !Touches(h, e, k)
    ensures SameAt(h, h', k)
  {
  }

  lemma {:induction false} UntouchedKeeps(run: seq<Home>, events: seq<Event>, i: nat, j: nat, k: Key)
    requires IsHomeRun(run, events) && i <= j < |run| && Untouched(run, events, i, j, k)
    ensures SameAt(run[i], run[j], k)
    decreases j
  {
    hide Step, Touches;
    if i < j {
      UntouchedKeeps(run, events, i, j - 1, k);
      assert Step(run[j - 1], run[j - 1 + 1], events[j - 1]);
      UntouchedStep(run[j - 1], run[j], events[j - 1], k);
    }
  }

  /** A read hands out one snapshot with these items. */
  ghost predicate HandsOut(h: Home, h': Home, items: Chain) {
    exists s :: s in h'.snapshots && s.items == items && s.expected.Value? && h'.snapshots == h.snapshots + {s}
  }

  /** The event at `i` stores the items under the key, nothing touches the key up to `j`, and then it is read. */
  ghost predicate ReadLater(run: seq<Home>, events: seq<Event>, i: nat, j: nat, k: Key) {
    IsHomeRun(run, events) && i < j < |events| && events[j] == Read(k) && Untouched(run, events, i + 1, j, k)
  }

  lemma ReadFinds(run: seq<Home>, events: seq<Event>, i: nat, j: nat, k: Key, raw: Raw)
    requires ReadLater(run, events, i, j, k) && k in run[i + 1].values && run[i + 1].values[k] == raw
    ensures HandsOut(run[j], run[j + 1], if raw.Marked? && raw.deleted then [] else raw.items)
  {
    hide Touches;
    UntouchedKeeps(run, events, i + 1, j, k);
    assert Step(run[j], run[j + 1], events[j]);
    assert SnapshotOf(raw).expected.Value?;
  }

  /** What an unconditional set stored is what the next read finds. */
  lemma ReadAfterOverwrite(run: seq<Home>, events: seq<Event>, i: nat, j: nat, k: Key)
    requires ReadLater(run, events, i, j, k) && events[i].Overwrite? && events[i].key == k
    ensures HandsOut(run[j], run[j + 1], events[i].items)
  {
    hide Touches, HandsOut;
    assert Step(run[i], run[i + 1], events[i]);
    ReadFinds(run, events, i, j, k, run[i + 1].values[k]);
  }

  /** A publication in flight is the one that was begun under its name, with the key, snapshot and items given then. */
  ghost predicate BegunAt(run: seq<Home>, events: seq<Event>, b: nat, i: nat, id: nat)
    requires |run| == |events| + 1 && i < |run|
  {
    && b < i && events[b].Begin? && events[b].id == id && id in run[i].jobs
    && run[i].jobs[id].key == events[b].key && run[i].jobs[id].items == events[b].items
    && run[i].jobs[id].snapshot == events[b].snapshot
    && forall t :: b < t <= i ==> id in run[t].jobs
  }

  lemma JobKeeps(h: Home, h': Home, e: Event, id: nat)
    requires Step(h, h', e) && id in h'.jobs
    ensures id !in h.jobs ==>
      && e.Begin? && e.id == id
      && h'.jobs[id].key == e.key && h'.jobs[id].items == e.items && h'.jobs[id].snapshot == e.snapshot
    ensures id in h.jobs ==>
      && h'.jobs[id].key == h.jobs[id].key && h'.jobs[id].items == h.jobs[id].items
      && h'.jobs[id].snapshot == h.jobs[id].snapshot && !(e.Begin? && e.id == id)
  {
  }

  lemma {:induction false} WasBegun(run: seq<Home>, events: seq<Event>, i: nat, id: nat) returns (b: nat)
    requires IsHomeRun(run, events) && i < |run| && id in run[i].jobs
    ensures BegunAt(run, events, b, i, id)
    decreases i
  {
    hide Step;
    assert Step(run[i - 1], run[i - 1 + 1], events[i - 1]);
    JobKeeps(run[i - 1], run[i], events[i - 1], id);
    if id !in run[i - 1].jobs {
      b := i - 1;
    } else {
      b := WasBegun(run, events, i - 1, id);
    }
  }

  /** The swap meets what it expects. */
  predicate Succeeds(h: Home, e: Event) {
    e.Swap? && e.id in h.jobs && Matches(h.values, h.jobs[e.id].key, h.jobs[e.id].expected)
  }

  /** A publication that went through is what the next read finds: the items that it was begun with. */
  lemma ReadAfterSwap(run: seq<Home>, events: seq<Event>, i: nat, j: nat, k: Key, b: nat)
    requires ReadLater(run, events, i, j, k) && Succeeds(run[i], events[i]) && BegunAt(run, events, b, i, events[i].id)
    requires events[b].key == k
    ensures HandsOut(run[j], run[j + 1], events[b].items)
  {
    hide Touches, HandsOut;
    assert Step(run[i], run[i + 1], events[i]);
    ReadFinds(run, events, i, j, k, run[i + 1].values[k]);
  }

  /** A first swap goes through if nothing touched the key since the value it was begun on was read. */
  lemma UncontendedSucceeds(run: seq<Home>, events: seq<Event>, r: nat, b: nat, i: nat, k: Key)
    requires IsHomeRun(run, events) && r < b < i < |events| && events[r] == Read(k)
    requires events[i].Swap? && BegunAt(run, events, b, i, events[i].id) && events[b].key == k
    requires k in run[r].values && events[b].snapshot.expected == Value(run[r].values[k])
    requires Untouched(run, events, r, i, k) && Swaps(events, b + 1, i, events[i].id) == 0
    ensures Succeeds(run[i], events[i])
  {
    hide Touches, Step, Swaps;
    UntouchedKeeps(run, events, r, i, k);
    TriedIsSwaps(run, events, b, i, events[i].id);
    FirstExpects(run, events, i, events[i].id);
  }

  lemma {:induction false} FirstExpects(run: seq<Home>, events: seq<Event>, i: nat, id: nat)
    requires IsHomeRun(run, events) && i < |run| && id in run[i].jobs && run[i].jobs[id].attempt == 0
    ensures run[i].jobs[id].expected == run[i].jobs[id].snapshot.expected
  {
    hide Step, Next;
    RunInv(run, events, i);
    assert GoodJob(run[i], run[i].jobs[id]);
  }

  /** What a read hands out stands for the value it found. */
  lemma ReadShows(run: seq<Home>, events: seq<Event>, r: nat, k: Key)
    requires IsHomeRun(run, events) && r < |events| && events[r] == Read(k)
    ensures k in run[r].values
    ensures exists s :: s in run[r + 1].snapshots && s.expected == Value(run[r].values[k])
  {
    assert Step(run[r], run[r + 1], events[r]);
    assert SnapshotOf(run[r].values[k]) in run[r + 1].snapshots;
  }

  /**
   After a guarded delete that met its value there is nothing to read; one that did not leaves every value as it was.
   */
  lemma ReadAfterDelete(run: seq<Home>, events: seq<Event>, i: nat, j: nat, k: Key)
    requires ReadLater(run, events, i, j, k) && events[i].GuardedDelete? && events[i].key == k
    ensures if Matches(run[i].values, k, events[i].snapshot.expected) then HandsOut(run[j], run[j + 1], [])
      else run[i + 1].values == run[i].values
  {
    hide Touches, HandsOut;
    assert Step(run[i], run[i + 1], events[i]);
    if Matches(run[i].values, k, events[i].snapshot.expected) {
      ReadFinds(run, events, i, j, k, run[i + 1].values[k]);
    }
  }

  /** A miss that was reserved reads as nothing. */
  lemma ReadAfterReserve(run: seq<Home>, events: seq<Event>, i: nat, j: nat, k: Key)
    requires ReadLater(run, events, i, j, k) && events[i].Reserve? && events[i].key == k
    ensures HandsOut(run[j], run[j + 1], [])
  {
    hide Touches, HandsOut;
    assert Step(run[i], run[i + 1], events[i]);
    ReadFinds(run, events, i, j, k, run[i + 1].values[k]);
  }

  // ---------- How publications end ----------

  /** How many swaps a job has made since a given time. */
  function Swaps(events: seq<Event>, b: nat, i: nat, id: nat): nat
    requires i <= |events|
    decreases i
  {
    if i <= b then 0 else Swaps(events, b, i - 1, id) + if events[i - 1].Swap? && events[i - 1].id == id then 1 else 0
  }

  function Tried(job: Job): nat {
    job.attempt + if job.reloading then 1 else 0
  }

  lemma TriedStep(h: Home, h': Home, e: Event, id: nat)
    requires Step(h, h', e) && id in h'.jobs
    ensures id !in h.jobs ==> Tried(h'.jobs[id]) == 0
    ensures id in h.jobs ==> Tried(h'.jobs[id]) == Tried(h.jobs[id]) + if e.Swap? && e.id == id then 1 else 0
  {
  }

  /** The attempts of a publication are the swaps it has made since it was begun, none of which met its value. */
  lemma {:induction false} TriedIsSwaps(run: seq<Home>, events: seq<Event>, b: nat, i: nat, id: nat)
    requires IsHomeRun(run, events) && i < |run| && BegunAt(run, events, b, i, id)
    ensures Tried(run[i].jobs[id]) == Swaps(events, b + 1, i, id)
    decreases i
  {
    hide Step, Tried;
    assert Step(run[i - 1], run[i - 1 + 1], events[i - 1]);
    TriedStep(run[i - 1], run[i], events[i - 1], id);
    JobKeeps(run[i - 1], run[i], events[i - 1], id);
    if b < i - 1 {
      TriedIsSwaps(run, events, b, i - 1, id);
    } else {
      JustBegun(run[b], run[b + 1], events[b]);
    }
  }

  lemma JustBegun(h: Home, h': Home, e: Event)
    requires Step(h, h', e) && e.Begin?
    ensures e.id !in h.jobs
  {
  }

  /** The value that beat a publication is a live chain of the branch it saw that it continues. */
  predicate MayContinue(raw: Raw, snapshot: Snapshot, items: Chain) {
    raw.Marked? && !raw.deleted && snapshot.branch != 0 && raw.branch == snapshot.branch && raw.items <= items
  }

  /**
   A publication leaves only by going through, by a failed call, or after a swap that met another value: when what is
   stored now is not for it to replace, or when that was its fourth swap.
   */
  lemma PublicationEnds(run: seq<Home>, events: seq<Event>, b: nat, i: nat, id: nat)
    requires IsHomeRun(run, events) && i < |events| && BegunAt(run, events, b, i, id) && id !in run[i + 1].jobs
    ensures
      || Succeeds(run[i], events[i])
      || events[i] == GiveUp(id)
      || (&& events[i] == Reload(id)
          && (|| events[b].key !in run[i].values
              || !MayContinue(run[i].values[events[b].key], events[b].snapshot, events[b].items)
              || Swaps(events, b + 1, i, id) == 4))
  {
    hide Swaps;
    assert Step(run[i], run[i + 1], events[i]);
    TriedIsSwaps(run, events, b, i, id);
    AttemptsBelow(run, events, i, id);
  }

  lemma AttemptStep(h: Home, h': Home, e: Event, id: nat)
    requires Step(h, h', e) && id in h'.jobs && (id in h.jobs ==> h.jobs[id].attempt < 4)
    ensures h'.jobs[id].attempt < 4
  {
  }

  lemma {:induction false} AttemptsBelow(run: seq<Home>, events: seq<Event>, i: nat, id: nat)
    requires IsHomeRun(run, events) && i < |run| && id in run[i].jobs
    ensures run[i].jobs[id].attempt < 4
    decreases i
  {
    hide Step;
    assert Step(run[i - 1], run[i - 1 + 1], events[i - 1]);
    if id in run[i - 1].jobs {
      AttemptsBelow(run, events, i - 1, id);
    }
    AttemptStep(run[i - 1], run[i], events[i - 1], id);
  }

  /** A publication that tries again swaps against the value that beat it. */
  lemma RetriesAgainstCurrent(run: seq<Home>, events: seq<Event>, b: nat, i: nat, id: nat)
    requires IsHomeRun(run, events) && i < |events| && BegunAt(run, events, b, i, id)
    requires events[i] == Reload(id) && id in run[i + 1].jobs
    ensures var k := events[b].key;
      && k in run[i].values && MayContinue(run[i].values[k], events[b].snapshot, events[b].items)
      && run[i + 1].jobs[id].expected == Value(run[i].values[k]) && run[i + 1].values == run[i].values
  {
    assert Step(run[i], run[i + 1], events[i]);
  }
}
