/**
 The Home register behind the Codex replay cache. Any number of clients append turns with a compare-and-swap loop cut
 at its calls, while others overwrite, delete or expire the value. A swap whose reply is lost may have been applied.

 Values are taken as decoded: the JSON encoding is injective, so comparing raw bytes is comparing values.
 */
module CodexHome {
  import opened Options
  import opened CodexTurns

  const MAX_ATTEMPTS: nat := 32

  datatype Register = Absent | Corrupt | Chain(items: seq<Item>)

  datatype Job =
    | Reading(turn: seq<Item>, attempt: nat)
    | Swapping(turn: seq<Item>, attempt: nat, seen: Register)
    | Acked(turn: seq<Item>)
    | Failed(turn: seq<Item>)

  /** One atomic change of the register. */
  datatype Entry = Appended(id: nat, turn: seq<Item>) | Overwritten(value: Register)

  datatype State = State(value: Register, jobs: map<nat, Job>, log: seq<Entry>)

  datatype Event =
    | Begin(id: nat, turn: seq<Item>)
    | Read(id: nat)
    | Swap(id: nat)
    | LoseReply(id: nat, applied: bool)
    | Fail(id: nat)
    | Overwrite(value: Register)

  const INITIAL: State := State(Absent, map[], [])

  function ItemsOf(value: Register): seq<Item> {
    if value.Chain? then value.items else []
  }

  /** The swap itself: only if the value is still the one that was read. */
  function Swapped(limits: Limits, s: State, id: nat, turn: seq<Item>, seen: Register): Option<State> {
    if s.value == seen
    then Some(s.(value := Chain(AppendTurn(limits, ItemsOf(seen), turn)), log := s.log + [Appended(id, turn)]))
    else None
  }

  function Retry(turn: seq<Item>, attempt: nat): Job {
    if attempt + 1 < MAX_ATTEMPTS then Reading(turn, attempt + 1) else Failed(turn)
  }

  function SetJob(s: State, id: nat, job: Job): State {
    s.(jobs := s.jobs[id := job])
  }

  function JobStep(limits: Limits, s: State, id: nat, job: Job, e: Event): State {
    match (job, e)
    case (Reading(turn, attempt), Read(_)) =>
      SetJob(s, id, if s.value.Corrupt? then Failed(turn) else Swapping(turn, attempt, s.value))
    case (Reading(turn, _), Fail(_)) => SetJob(s, id, Failed(turn))
    case (Swapping(turn, attempt, seen), Swap(_)) =>
      var done := Swapped(limits, s, id, turn, seen);
      if done.Some? then SetJob(done.value, id, Acked(turn)) else SetJob(s, id, Retry(turn, attempt))
    case (Swapping(turn, _, seen), LoseReply(_, applied)) =>
      var done := Swapped(limits, s, id, turn, seen);
      SetJob(if applied && done.Some? then done.value else s, id, Failed(turn))
    case _ => s
  }

  /** Events that do not apply change nothing. */
  function Step(limits: Limits, s: State, e: Event): State {
    match e
    case Begin(id, turn) => if id in s.jobs then s else SetJob(s, id, Reading(turn, 0))
    case Overwrite(value) => s.(value := value, log := s.log + [Overwritten(value)])
    case _ => if e.id in s.jobs then JobStep(limits, s, e.id, s.jobs[e.id], e) else s
  }

  function Run(limits: Limits, events: seq<Event>): State {
    if events == [] then INITIAL else Step(limits, Run(limits, events[..|events| - 1]), events[|events| - 1])
  }

  // ---------- Serializability ----------

  function Effect(limits: Limits, value: Register, entry: Entry): Register {
    match entry
    case Appended(_, turn) => Chain(AppendTurn(limits, ItemsOf(value), turn))
    case Overwritten(next) => next
  }

  /** The register after atomic changes, one after the other. */
  function Replay(limits: Limits, log: seq<Entry>): Register {
    if log == [] then Absent else Effect(limits, Replay(limits, log[..|log| - 1]), log[|log| - 1])
  }

  predicate Ended(job: Job) {
    job.Acked? || job.Failed?
  }

  /** Each append took effect at most once, each acknowledged one exactly once, and no loop exceeds its attempts. */
  ghost predicate Accounted(s: State) {
    && (forall n :: 0 <= n < |s.log| && s.log[n].Appended? ==>
          s.log[n].id in s.jobs && Ended(s.jobs[s.log[n].id]) && s.jobs[s.log[n].id].turn == s.log[n].turn)
    && (forall m, n :: 0 <= m < n < |s.log| && s.log[m].Appended? && s.log[n].Appended? ==> s.log[m].id != s.log[n].id)
    && (forall id :: id in s.jobs && s.jobs[id].Acked? ==> Appended(id, s.jobs[id].turn) in s.log)
    && (forall id :: id in s.jobs && !Ended(s.jobs[id]) ==> s.jobs[id].attempt < MAX_ATTEMPTS)
  }

  ghost predicate Serial(limits: Limits, s: State) {
    Accounted(s) && s.value == Replay(limits, s.log)
  }

  lemma AttemptsLeft(s: State, id: nat)
    requires Accounted(s) && id in s.jobs && !Ended(s.jobs[id])
    ensures s.jobs[id].attempt < MAX_ATTEMPTS
  {
  }

  lemma AccountJob(s: State, id: nat, job: Job)
    requires Accounted(s)
    requires id in s.jobs ==> !Ended(s.jobs[id]) && s.jobs[id].turn == job.turn
    requires !job.Acked? && (job.Failed? || job.attempt < MAX_ATTEMPTS)
    ensures Accounted(SetJob(s, id, job))
  {
  }

  lemma AccountAppend(s: State, value: Register, id: nat, job: Job)
    requires Accounted(s) && id in s.jobs && !Ended(s.jobs[id]) && s.jobs[id].turn == job.turn
    requires Ended(job)
    ensures Accounted(SetJob(s.(value := value, log := s.log + [Appended(id, job.turn)]), id, job))
  {
    var t := SetJob(s.(value := value, log := s.log + [Appended(id, job.turn)]), id, job);
    assert t.log[|s.log|] == Appended(id, job.turn);
    forall other | other in t.jobs && t.jobs[other].Acked? ensures Appended(other, t.jobs[other].turn) in t.log {
      if other != id {
        assert Appended(other, s.jobs[other].turn) in s.log;
      }
    }
  }

  lemma AccountOverwrite(s: State, value: Register)
    requires Accounted(s)
    ensures Accounted(s.(value := value, log := s.log + [Overwritten(value)]))
  {
    var t := s.(value := value, log := s.log + [Overwritten(value)]);
    forall id | id in t.jobs && t.jobs[id].Acked? ensures Appended(id, t.jobs[id].turn) in t.log {
      assert Appended(id, s.jobs[id].turn) in s.log;
    }
  }

  lemma ReplayOneMore(limits: Limits, log: seq<Entry>, entry: Entry)
    ensures Replay(limits, log + [entry]) == Effect(limits, Replay(limits, log), entry)
  {
    assert (log + [entry])[..|log|] == log;
  }

  lemma StepSerial(limits: Limits, s: State, e: Event)
    requires Serial(limits, s)
    ensures Serial(limits, Step(limits, s, e))
  {
    hide AppendTurn, Accounted, Replay;
    match e
    case Begin(id, turn) =>
      if id !in s.jobs {
        AccountJob(s, id, Reading(turn, 0));
      }
    case Overwrite(value) =>
      AccountOverwrite(s, value);
      ReplayOneMore(limits, s.log, Overwritten(value));
    case _ =>
      if e.id in s.jobs && !Ended(s.jobs[e.id]) {
        JobStepSerial(limits, s, e.id, e);
      }
  }

  lemma JobStepSerial(limits: Limits, s: State, id: nat, e: Event)
    requires Serial(limits, s) && id in s.jobs && !Ended(s.jobs[id])
    ensures Serial(limits, JobStep(limits, s, id, s.jobs[id], e))
  {
    hide AppendTurn, Accounted, Replay;
    AttemptsLeft(s, id);
    var job := s.jobs[id];
    var turn := job.turn;
    AccountJob(s, id, Failed(turn));
    if job.Reading? {
      AccountJob(s, id, Swapping(turn, job.attempt, s.value));
    } else {
      AccountJob(s, id, Retry(turn, job.attempt));
      var value := Chain(AppendTurn(limits, ItemsOf(job.seen), turn));
      AccountAppend(s, value, id, Acked(turn));
      AccountAppend(s, value, id, Failed(turn));
      ReplayOneMore(limits, s.log, Appended(id, turn));
    }
  }

  /**
   In every interleaving, the register holds what its changes make when applied atomically in one order, in which each
   acknowledged append occurs exactly once and every other append at most once.
   */
  lemma {:induction false} RunIsSerial(limits: Limits, events: seq<Event>)
    ensures Serial(limits, Run(limits, events))
    decreases |events|
  {
    if events != [] {
      RunIsSerial(limits, events[..|events| - 1]);
      StepSerial(limits, Run(limits, events[..|events| - 1]), events[|events| - 1]);
    }
  }

  // ---------- What becomes of turns ----------

  /** Every turn that was appended is of kind `p`, and whatever else was stored is of kind `q`. */
  predicate LogOf(log: seq<Entry>, p: seq<Item> -> bool, q: Register -> bool) {
    forall n :: 0 <= n < |log| ==> if log[n].Appended? then p(log[n].turn) else q(log[n].value)
  }

  predicate RunOf(events: seq<Event>, p: seq<Item> -> bool, q: Register -> bool) {
    forall n :: 0 <= n < |events| ==>
      (events[n].Begin? ==> p(events[n].turn)) && (events[n].Overwrite? ==> q(events[n].value))
  }

  predicate StateOf(s: State, p: seq<Item> -> bool, q: Register -> bool) {
    LogOf(s.log, p, q) && forall id :: id in s.jobs ==> p(s.jobs[id].turn)
  }

  lemma {:induction false} RunStaysOf(limits: Limits, events: seq<Event>, p: seq<Item> -> bool, q: Register -> bool)
    requires RunOf(events, p, q)
    ensures StateOf(Run(limits, events), p, q)
    decreases |events|
  {
    hide AppendTurn;
    if events != [] {
      RunStaysOf(limits, events[..|events| - 1], p, q);
    }
  }

  /** Turns that open with a marker that carries an ID, as clients make them. */
  predicate Led(turn: seq<Item>) {
    TurnId(turn) != ""
  }

  predicate Anything(value: Register) {
    true
  }

  predicate Unique(value: Register) {
    OnceEach(ItemsOf(value))
  }

  lemma {:induction false} ReplayOnceEach(limits: Limits, log: seq<Entry>)
    requires LogOf(log, IsTurn, Unique)
    ensures OnceEach(ItemsOf(Replay(limits, log)))
    decreases |log|
  {
    hide AppendTurn, IsTurn, OnceEach;
    if log != [] {
      var last := log[|log| - 1];
      var before := Replay(limits, log[..|log| - 1]);
      ReplayOnceEach(limits, log[..|log| - 1]);
      if last.Appended? {
        AppendKeepsOnceEach(limits, ItemsOf(before), last.turn);
      }
    } else {
      NothingOnceEach();
    }
  }

  lemma NothingOnceEach()
    ensures OnceEach([])
  {
  }

  /** In every reachable state, each turn ID occurs at most once. */
  lemma TurnIdsUnique(limits: Limits, events: seq<Event>)
    requires RunOf(events, IsTurn, Unique)
    ensures OnceEach(ItemsOf(Run(limits, events).value))
  {
    hide Replay, OnceEach, Run, Accounted, IsTurn;
    RunIsSerial(limits, events);
    RunStaysOf(limits, events, IsTurn, Unique);
    ReplayOnceEach(limits, Run(limits, events).log);
  }

  predicate OnlyAppends(log: seq<Entry>) {
    forall n :: 0 <= n < |log| ==> log[n].Appended?
  }

  function TurnsOf(log: seq<Entry>): (turns: seq<seq<Item>>)
    requires OnlyAppends(log)
    ensures |turns| == |log| && forall n :: 0 <= n < |log| ==> turns[n] == log[n].turn
  {
    seq(|log|, n requires 0 <= n < |log| => log[n].turn)
  }

  lemma {:induction false} AppendAllOneMore(limits: Limits, items: seq<Item>, turns: seq<seq<Item>>, turn: seq<Item>)
    ensures AppendAll(limits, items, turns + [turn]) == AppendTurn(limits, AppendAll(limits, items, turns), turn)
    decreases |turns|
  {
    hide AppendTurn;
    if turns != [] {
      AppendAllOneMore(limits, AppendTurn(limits, items, turns[0]), turns[1..], turn);
      assert (turns + [turn])[1..] == turns[1..] + [turn];
    }
  }

  lemma {:induction false} ReplayAppends(limits: Limits, log: seq<Entry>, n: nat)
    requires n <= |log| && OnlyAppends(log[n..])
    ensures ItemsOf(Replay(limits, log)) == AppendAll(limits, ItemsOf(Replay(limits, log[..n])), TurnsOf(log[n..]))
    decreases |log|
  {
    hide AppendTurn;
    if n == |log| {
      assert log[..n] == log;
    } else {
      var front, last := log[..|log| - 1], log[|log| - 1];
      assert log[n..] == front[n..] + [last] && front[..n] == log[..n];
      assert log[n..][|log| - 1 - n] == last;
      assert forall i :: 0 <= i < |front| - n ==> front[n..][i] == log[n..][i];
      ReplayAppends(limits, front, n);
      AppendAllOneMore(limits, ItemsOf(Replay(limits, log[..n])), TurnsOf(front[n..]), last.turn);
      assert TurnsOf(log[n..]) == TurnsOf(front[n..]) + [last.turn];
    }
  }

  /** What the register holds if only appends follow the n-th change, itself an append. */
  ghost predicate TrimmedSince(limits: Limits, s: State, n: nat)
    requires n < |s.log|
  {
    OnlyAppends(s.log[n + 1..]) ==>
      var base := ItemsOf(Replay(limits, s.log[..n + 1]));
      Settled(limits, base) && ItemsOf(s.value) == Trim(limits, base + Added(limits, base, TurnsOf(s.log[n + 1..])))
  }

  lemma AppendsTrim(limits: Limits, s: State, n: nat)
    requires Serial(limits, s) && LogOf(s.log, Led, Anything) && n < |s.log| && s.log[n].Appended?
    ensures TrimmedSince(limits, s, n)
  {
    hide AppendTurn, Settled, Accounted, AppendAll, Trim, Added, TurnId;
    if OnlyAppends(s.log[n + 1..]) {
      var before := Replay(limits, s.log[..n]);
      var base := ItemsOf(Replay(limits, s.log[..n + 1]));
      assert s.log[..n + 1] == s.log[..n] + [s.log[n]];
      ReplayOneMore(limits, s.log[..n], s.log[n]);
      LedIsRooted(s.log[n].turn);
      AppendSettles(limits, ItemsOf(before), s.log[n].turn);
      ReplayAppends(limits, s.log, n + 1);
      var later := s.log[n + 1..];
      forall i | 0 <= i < |later| ensures Led(later[i].turn) {
        assert later[i] == s.log[n + 1 + i];
      }
      AppendsOnlyTrim(limits, base, TurnsOf(s.log[n + 1..]));
    }
  }


  /**
   An acknowledged append took effect once, on the value of that moment; while only appends follow it, the chain that
   it left loses nothing except by one trim of the front of everything added since.
   */
  lemma AckedTurnLeavesByTrimming(limits: Limits, events: seq<Event>, id: nat)
    requires RunOf(events, Led, Anything)
    requires var s := Run(limits, events); id in s.jobs && s.jobs[id].Acked?
    ensures var s := Run(limits, events); exists n ::
      && 0 <= n < |s.log| && s.log[n] == Appended(id, s.jobs[id].turn)
      && (forall m :: 0 <= m < |s.log| && s.log[m].Appended? && s.log[m].id == id ==> m == n)
      && TrimmedSince(limits, s, n)
  {
    hide Run, Replay, TrimmedSince, Led;
    var s := Run(limits, events);
    RunIsSerial(limits, events);
    RunStaysOf(limits, events, Led, Anything);
    assert Appended(id, s.jobs[id].turn) in s.log;
    var n :| 0 <= n < |s.log| && s.log[n] == Appended(id, s.jobs[id].turn);
    AppendsTrim(limits, s, n);
  }
}
