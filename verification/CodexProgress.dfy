/**
 How the Codex append loop comes to its end, told by the events of a run: it swaps against the value it read last, tries
 again when another write came between, and gives up only when that has happened every time.
 */
module CodexProgress {
  import opened Options
  import opened CodexTurns
  import opened CodexHome

  /** A swap that meets a value other than the one read before it. */
  predicate MeetsOther(s: State, e: Event, id: nat) {
    e == Swap(id) && id in s.jobs && s.jobs[id].Swapping? && s.value != s.jobs[id].seen
  }

  /** How often the job has met another value. */
  function Losses(limits: Limits, events: seq<Event>, id: nat): nat {
    if events == [] then 0
    else
      var front, last := events[..|events| - 1], events[|events| - 1];
      Losses(limits, front, id) + if MeetsOther(Run(limits, front), last, id) then 1 else 0
  }

  /** None of its calls fails or loses its reply, and it reads no corrupt value. */
  predicate Undisturbed(limits: Limits, events: seq<Event>, id: nat) {
    forall n :: 0 <= n < |events| ==>
      && events[n] != Fail(id) && !(events[n].LoseReply? && events[n].id == id)
      && (events[n] == Read(id) ==> !Run(limits, events[..n]).value.Corrupt?)
  }

  lemma UndisturbedFront(limits: Limits, events: seq<Event>, id: nat)
    requires Undisturbed(limits, events, id) && events != []
    ensures Undisturbed(limits, events[..|events| - 1], id)
  {
    hide Run;
    var front := events[..|events| - 1];
    forall n | 0 <= n < |front|
      ensures front[n] == events[n] && front[..n] == events[..n]
    {
    }
  }

  /** What the losses say about the job and about the changes of the register. */
  ghost predicate Standing(s: State, id: nat, losses: nat) {
    && losses <= |s.log|
    && (id !in s.jobs ==> losses == 0)
    && (id in s.jobs ==>
          match s.jobs[id]
          case Reading(_, attempt) => losses == attempt < 32
          case Swapping(_, attempt, seen) => losses == attempt < 32 && (s.value != seen ==> losses + 1 <= |s.log|)
          case Acked(_) => losses < 32
          case Failed(_) => losses == 32)
  }

  lemma StandingStep(limits: Limits, s: State, e: Event, id: nat, losses: nat)
    requires Standing(s, id, losses)
    requires e != Fail(id) && !(e.LoseReply? && e.id == id) && (e == Read(id) ==> !s.value.Corrupt?)
    ensures Standing(Step(limits, s, e), id, losses + if MeetsOther(s, e, id) then 1 else 0)
  {
    hide AppendTurn;
  }

  lemma {:induction false} JobStands(limits: Limits, events: seq<Event>, id: nat)
    requires Undisturbed(limits, events, id)
    ensures Standing(Run(limits, events), id, Losses(limits, events, id))
    decreases |events|
  {
    hide Step, Standing;
    if events == [] {
      NothingStands(id);
    } else {
      var front, last := events[..|events| - 1], events[|events| - 1];
      UndisturbedFront(limits, events, id);
      JobStands(limits, front, id);
      assert events[..|events| - 1] == front;
      StandingStep(limits, Run(limits, front), last, id, Losses(limits, front, id));
    }
  }

  lemma NothingStands(id: nat)
    ensures Standing(INITIAL, id, 0)
  {
  }

  /**
   An append whose calls succeed and that reads no corrupt value gives up only after 32 swaps, each of which met a value
   other than the one read before it; so at least 32 changes by others came between.
   */
  lemma GivesUpLast(limits: Limits, events: seq<Event>, id: nat)
    requires Undisturbed(limits, events, id)
    requires id in Run(limits, events).jobs && Run(limits, events).jobs[id].Failed?
    ensures Losses(limits, events, id) == 32 && |Run(limits, events).log| >= 32
  {
    hide Run, Losses, Undisturbed;
    JobStands(limits, events, id);
  }

  /**
   A swap that meets the value read is acknowledged, with its turn as the next change; any other swap changes nothing.
   */
  lemma SwapDecides(limits: Limits, events: seq<Event>, id: nat)
    requires id in Run(limits, events).jobs && Run(limits, events).jobs[id].Swapping?
    ensures var s, s' := Run(limits, events), Run(limits, events + [Swap(id)]);
      var turn := s.jobs[id].turn;
      if s.value == s.jobs[id].seen
      then
        s'.jobs == s.jobs[id := Acked(turn)] && s'.log == s.log + [Appended(id, turn)] &&
        s'.value == Chain(AppendTurn(limits, ItemsOf(s.value), turn))
      else s'.value == s.value && s'.log == s.log && id in s'.jobs && !s'.jobs[id].Acked?
  {
    hide AppendTurn;
    var all := events + [Swap(id)];
    assert all[..|all| - 1] == events && all[|all| - 1] == Swap(id);
  }

  /** The job has been as it is now since just after the n-th event. */
  ghost predicate SameSince(limits: Limits, events: seq<Event>, id: nat, job: Job, n: nat) {
    forall m :: n < m <= |events| ==> id in Run(limits, events[..m]).jobs && Run(limits, events[..m]).jobs[id] == job
  }

  lemma JobMoves(limits: Limits, s: State, e: Event, id: nat)
    requires id in Step(limits, s, e).jobs
    ensures id !in s.jobs ==> e == Begin(id, Step(limits, s, e).jobs[id].turn) && Step(limits, s, e).jobs[id].Reading?
    ensures id in s.jobs ==> Step(limits, s, e).jobs[id].turn == s.jobs[id].turn
    ensures id in s.jobs && Step(limits, s, e).jobs[id].Swapping? ==>
      || Step(limits, s, e).jobs[id] == s.jobs[id]
      || (e == Read(id) && s.jobs[id].Reading? && Step(limits, s, e).jobs[id].seen == s.value)
  {
    hide AppendTurn;
  }

  /**
   The value a job is about to swap against is the one that its last read found, and its turn the one it began with.
   */
  lemma {:induction false} SeenWasRead(limits: Limits, events: seq<Event>, id: nat) returns (b: nat, r: nat)
    requires id in Run(limits, events).jobs
    ensures b < |events| && events[b] == Begin(id, Run(limits, events).jobs[id].turn)
    ensures Run(limits, events).jobs[id].Swapping? ==>
      && b < r < |events| && events[r] == Read(id)
      && Run(limits, events[..r]).value == Run(limits, events).jobs[id].seen
      && SameSince(limits, events, id, Run(limits, events).jobs[id], r)
    decreases |events|
  {
    hide Step;
    var front, last := events[..|events| - 1], events[|events| - 1];
    var s, s' := Run(limits, front), Run(limits, events);
    JobMoves(limits, s, last, id);
    assert events[..|events|] == events;
    r := |events| - 1;
    if id !in s.jobs {
      b := |events| - 1;
    } else {
      var earlier;
      b, earlier := SeenWasRead(limits, front, id);
      if s'.jobs[id].Swapping? && s'.jobs[id] == s.jobs[id] {
        r := earlier;
        assert front[..r] == events[..r];
        forall m | r < m <= |events|
          ensures id in Run(limits, events[..m]).jobs && Run(limits, events[..m]).jobs[id] == s'.jobs[id]
        {
          if m < |events| {
            assert front[..m] == events[..m];
          }
        }
      }
    }
  }

  /** A read leads to a swap against the value found; a corrupt value ends the append. Neither changes the register. */
  lemma ReadDecides(limits: Limits, events: seq<Event>, id: nat)
    requires id in Run(limits, events).jobs && Run(limits, events).jobs[id].Reading?
    ensures var s, s' := Run(limits, events), Run(limits, events + [Read(id)]);
      && s'.value == s.value && s'.log == s.log && id in s'.jobs
      && s'.jobs[id].turn == s.jobs[id].turn
      && if s.value == Corrupt then s'.jobs[id].Failed? else s'.jobs[id].Swapping? && s'.jobs[id].seen == s.value
  {
    var all := events + [Read(id)];
    assert all[..|all| - 1] == events && all[|all| - 1] == Read(id);
  }

  /** Other writes replace the value, whatever it was. */
  lemma OverwriteStores(limits: Limits, events: seq<Event>, value: Register)
    ensures var s, s' := Run(limits, events), Run(limits, events + [Overwrite(value)]);
      s'.value == value && s'.jobs == s.jobs && s'.log == s.log + [Overwritten(value)]
  {
    var all := events + [Overwrite(value)];
    assert all[..|all| - 1] == events && all[|all| - 1] == Overwrite(value);
  }

  /** A swap whose reply is lost ends the append; it took effect or not, but only on the value read. */
  lemma LostReplyDecides(limits: Limits, events: seq<Event>, id: nat, applied: bool)
    requires id in Run(limits, events).jobs && Run(limits, events).jobs[id].Swapping?
    ensures var s, s' := Run(limits, events), Run(limits, events + [LoseReply(id, applied)]);
      var turn := s.jobs[id].turn;
      && s'.jobs == s.jobs[id := Failed(turn)]
      && if applied && s.value == s.jobs[id].seen
         then s'.value == Chain(AppendTurn(limits, ItemsOf(s.value), turn)) && s'.log == s.log + [Appended(id, turn)]
         else s'.value == s.value && s'.log == s.log
  {
    hide AppendTurn;
    var all := events + [LoseReply(id, applied)];
    assert all[..|all| - 1] == events && all[|all| - 1] == LoseReply(id, applied);
  }
}
