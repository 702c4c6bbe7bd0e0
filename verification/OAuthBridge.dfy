/**
 The OAuth callback bridge: leases indexed by state and by provider, ended in separate critical sections, while any
 number of callbacks are being dispatched. Every method of the bridge is one atomic step; they may come in any order.
 */
module OAuthBridge {
  import opened Options

  const OK: int := 200
  const CONFLICT: int := 409

  /** A lease is named by its place among all leases ever granted, a dispatched callback by its place among those. */
  type Lease = nat
  type CallId = nat

  /** How far the one termination of a lease has come; the last stage has closed its done channel. */
  datatype Phase = Open | Closing | Released | Detached | Done

  datatype LeaseInfo = LeaseInfo(provider: string, state: string, phase: Phase, holder: Option<CallId>)

  datatype Answer = Refused | Failed | Result(status: int)

  /** Where a dispatched callback stands. */
  datatype Call =
    | Rejected
    | Looked(lease: Lease)
    | Holding(lease: Lease)
    | Waiting(lease: Lease)
    | Ending(lease: Lease)
    | Got(lease: Lease, status: int)
    | Returning(lease: Lease, status: int)
    | Finished(lease: Lease, answer: Answer)

  datatype Event =
    | Acquiring(provider: string, state: string, canListen: bool)
    | Dispatching(provider: string, state: string)
    | Terminating(l: Lease)
    | Calling(d: CallId, status: Option<int>, cancelled: bool)

  type States = map<string, Lease>
  type Providers = map<string, States>

  predicate Final(status: int) {
    status == OK || status == CONFLICT
  }

  /** The callback holds the transaction slot of its lease. */
  predicate Holds(c: Call) {
    c.Holding? || c.Waiting? || c.Ending? || c.Got? || c.Returning?
  }

  /** The callback has received the answer that settles its lease. */
  predicate Settled(c: Call) {
    || ((c.Got? || c.Returning?) && Final(c.status))
    || (c.Finished? && c.answer.Result? && Final(c.answer.status))
  }

  predicate Concerns(c: Call, l: Lease) {
    !c.Rejected? && c.lease == l
  }

  predicate Pending(states: States, leases: seq<LeaseInfo>, l: Lease) {
    l < |leases| && leases[l].state in states && states[leases[l].state] == l
  }

  // ---------- The invariant ----------

  /** Both indexes describe the same leases, and a listener is registered exactly while it has one. */
  ghost predicate Indexed(states: States, providers: Providers, leases: seq<LeaseInfo>) {
    && (forall s :: s in states ==>
          && states[s] < |leases| && leases[states[s]].state == s
          && leases[states[s]].provider in providers
          && s in providers[leases[states[s]].provider])
    && (forall p :: p in providers ==> providers[p] != map[])
    && (forall p, s :: p in providers && s in providers[p] ==>
          s in states && states[s] == providers[p][s] && states[s] < |leases| && leases[states[s]].provider == p)
  }

  /** A lease stays connected until it is detached, and is pending only before it is released. */
  ghost predicate Phased(states: States, connections: set<Lease>, leases: seq<LeaseInfo>) {
    && (forall l :: l in connections <==>
          0 <= l < |leases| && (leases[l].phase.Open? || leases[l].phase.Closing? || leases[l].phase.Released?))
    && (forall l :: 0 <= l < |leases| && Pending(states, leases, l) ==>
          leases[l].phase.Open? || leases[l].phase.Closing?)
  }

  /** The transaction slot of a lease is held by one callback at most. */
  ghost predicate Exclusive(leases: seq<LeaseInfo>, calls: seq<Call>) {
    && (forall d :: 0 <= d < |calls| && !calls[d].Rejected? ==> calls[d].lease < |leases|)
    && (forall d :: 0 <= d < |calls| && Holds(calls[d]) ==> leases[calls[d].lease].holder == Some(d))
    && (forall l :: 0 <= l < |leases| && leases[l].holder.Some? ==>
          var d := leases[l].holder.value; d < |calls| && Holds(calls[d]) && calls[d].lease == l)
  }

  /** No other callback has settled the lease or is waiting for its answer. */
  ghost predicate Alone(calls: seq<Call>, d: CallId, l: Lease) {
    forall e :: 0 <= e < |calls| && e != d && Concerns(calls[e], l) ==> !Settled(calls[e]) && !calls[e].Waiting?
  }

  /** A settled lease has one callback that settled it, and none waiting; it is not pending once that one lets go. */
  ghost predicate OneAnswer(states: States, leases: seq<LeaseInfo>, calls: seq<Call>) {
    && (forall c :: 0 <= c < |calls| && Settled(calls[c]) ==> Alone(calls, c, calls[c].lease))
    && (forall c :: 0 <= c < |calls| && Settled(calls[c]) && !calls[c].Got? ==>
          !Pending(states, leases, calls[c].lease))
  }

  // ---------- Releasing a state, on values ----------

  function WithoutState(states: States, leases: seq<LeaseInfo>, l: Lease): States {
    if Pending(states, leases, l) then states - {leases[l].state} else states
  }

  function WithoutLease(states: States, providers: Providers, leases: seq<LeaseInfo>, l: Lease): Providers {
    if !Pending(states, leases, l) || leases[l].provider !in providers then providers
    else
      var rest := providers[leases[l].provider] - {leases[l].state};
      if rest == map[] then providers - {leases[l].provider} else providers[leases[l].provider := rest]
  }

  lemma ReleaseKeepsIndex(states: States, providers: Providers, leases: seq<LeaseInfo>, l: Lease)
    requires Indexed(states, providers, leases)
    ensures Indexed(WithoutState(states, leases, l), WithoutLease(states, providers, leases, l), leases)
    ensures forall k :: 0 <= k < |leases| ==>
      (Pending(WithoutState(states, leases, l), leases, k) <==> k != l && Pending(states, leases, k))
    ensures !Pending(WithoutState(states, leases, l), leases, l)
  {
    if Pending(states, leases, l) {
      var provider, state := leases[l].provider, leases[l].state;
      var rest := providers[provider] - {state};
      assert forall s :: s in rest <==> s in providers[provider] && s != state;
      if rest == map[] {
        LastRemoved(states, providers, leases, l);
      } else {
        OneRemoved(states, providers, leases, l, rest);
      }
    }
  }

  lemma LastRemoved(states: States, providers: Providers, leases: seq<LeaseInfo>, l: Lease)
    requires Indexed(states, providers, leases) && Pending(states, leases, l)
    requires var p := leases[l].provider; forall s :: s in providers[p] ==> s == leases[l].state
    ensures Indexed(states - {leases[l].state}, providers - {leases[l].provider}, leases)
  {
  }

  lemma OneRemoved(states: States, providers: Providers, leases: seq<LeaseInfo>, l: Lease, rest: States)
    requires Indexed(states, providers, leases) && Pending(states, leases, l)
    requires rest == providers[leases[l].provider] - {leases[l].state} && rest != map[]
    ensures Indexed(states - {leases[l].state}, providers[leases[l].provider := rest], leases)
  {
  }

  lemma AcquireKeepsIndex(states: States, providers: Providers, leases: seq<LeaseInfo>, info: LeaseInfo)
    requires Indexed(states, providers, leases) && info.state !in states
    ensures var l := |leases|;
      var own := if info.provider in providers then providers[info.provider] else map[];
      Indexed(states[info.state := l], providers[info.provider := own[info.state := l]], leases + [info])
  {
    var l := |leases|;
    var own := if info.provider in providers then providers[info.provider] else map[];
    var mine := own[info.state := l];
    var after := leases + [info];
    assert info.state in mine && mine[info.state] == l && after[l] == info;
    assert forall k :: 0 <= k < |leases| ==> after[k] == leases[k];
  }

  // ---------- Changes of leases and callbacks, on values ----------

  /** Only phases and transaction slots differ. */
  ghost predicate SameLeases(a: seq<LeaseInfo>, b: seq<LeaseInfo>) {
    |a| == |b| && forall l :: 0 <= l < |a| ==> a[l].state == b[l].state && a[l].provider == b[l].provider
  }

  lemma SameIndex(states: States, providers: Providers, a: seq<LeaseInfo>, b: seq<LeaseInfo>)
    requires Indexed(states, providers, a) && SameLeases(a, b)
    ensures Indexed(states, providers, b)
  {
  }

  lemma SameAnswer(states: States, a: seq<LeaseInfo>, b: seq<LeaseInfo>, calls: seq<Call>)
    requires OneAnswer(states, a, calls) && SameLeases(a, b)
    ensures OneAnswer(states, b, calls)
  {
  }

  /** Moving a lease on to its next phase. */
  lemma PhaseKeeps(states: States, connections: set<Lease>, leases: seq<LeaseInfo>, l: Lease, next: Phase)
    requires Phased(states, connections, leases) && l < |leases|
    requires next.Closing? ==> leases[l].phase.Open?
    requires next.Released? ==> leases[l].phase.Closing?
    requires next.Detached? || next.Done? ==> leases[l].phase.Released? || leases[l].phase.Detached?
    requires next.Open? ==> leases[l].phase.Open?
    requires !next.Closing? && !next.Open? ==> !Pending(states, leases, l)
    ensures var after := leases[l := leases[l].(phase := next)];
      && Phased(states, if next.Detached? || next.Done? then connections - {l} else connections, after)
      && SameLeases(leases, after)
  {
  }

  lemma FewerPending(states: States, states': States, connections: set<Lease>, leases: seq<LeaseInfo>)
    requires Phased(states, connections, leases)
    requires forall l :: 0 <= l < |leases| && Pending(states', leases, l) ==> Pending(states, leases, l)
    ensures Phased(states', connections, leases)
  {
  }

  lemma StillHolds(leases: seq<LeaseInfo>, l: Lease, next: Phase, calls: seq<Call>)
    requires Exclusive(leases, calls) && l < |leases|
    ensures Exclusive(leases[l := leases[l].(phase := next)], calls)
  {
  }

  lemma MoveHolder(leases: seq<LeaseInfo>, calls: seq<Call>, d: CallId, c: Call)
    requires Exclusive(leases, calls) && d < |calls| && Holds(calls[d]) && Holds(c) && c.lease == calls[d].lease
    ensures Exclusive(leases, calls[d := c])
  {
  }

  function Freed(leases: seq<LeaseInfo>, l: Lease): seq<LeaseInfo>
    requires l < |leases|
  {
    leases[l := leases[l].(holder := None)]
  }

  lemma FreeKeeps(leases: seq<LeaseInfo>, calls: seq<Call>, d: CallId, answer: Answer)
    requires Exclusive(leases, calls) && d < |calls| && Holds(calls[d])
    ensures Exclusive(Freed(leases, calls[d].lease), calls[d := Finished(calls[d].lease, answer)])
    ensures SameLeases(leases, Freed(leases, calls[d].lease))
  {
  }

  lemma FreePhased(states: States, connections: set<Lease>, leases: seq<LeaseInfo>, l: Lease, holder: Option<CallId>)
    requires Phased(states, connections, leases) && l < |leases|
    ensures Phased(states, connections, leases[l := leases[l].(holder := holder)])
  {
  }

  lemma MoveAnswer(states: States, states': States, leases: seq<LeaseInfo>, calls: seq<Call>, d: CallId, c: Call)
    requires OneAnswer(states, leases, calls) && d < |calls|
    requires !calls[d].Rejected? && Concerns(c, calls[d].lease)
    requires Settled(c) && !Settled(calls[d]) ==> Alone(calls, d, c.lease)
    requires c.Waiting? ==> Alone(calls, d, c.lease)
    requires forall l :: 0 <= l < |leases| && Pending(states', leases, l) ==> Pending(states, leases, l)
    requires Settled(c) && !c.Got? ==> !Pending(states', leases, c.lease)
    ensures OneAnswer(states', leases, calls[d := c])
  {
  }

  /** The callback that waits is alone: others would need the slot, or find the lease not pending. */
  lemma WaiterIsAlone(states: States, leases: seq<LeaseInfo>, calls: seq<Call>, d: CallId)
    requires Exclusive(leases, calls) && OneAnswer(states, leases, calls) && d < |calls|
    requires calls[d].Waiting? || (Holds(calls[d]) && Pending(states, leases, calls[d].lease))
    ensures Alone(calls, d, calls[d].lease)
  {
    var l := calls[d].lease;
    forall e | 0 <= e < |calls| && e != d && Concerns(calls[e], l) ensures !Settled(calls[e]) && !calls[e].Waiting? {
      assert Holds(calls[d]) && !Holds(calls[e]);
    }
  }

  // ---------- The bridge ----------

  class Bridge {
    var states: States
    var providers: Providers
    var connections: set<Lease>
    var leases: seq<LeaseInfo>
    var calls: seq<Call>

    ghost predicate Valid()
      reads this
    {
      && Indexed(states, providers, leases) && Phased(states, connections, leases)
      && Exclusive(leases, calls) && OneAnswer(states, leases, calls)
    }

    /** Leases keep their names, and what a callback has returned stays returned. */
    twostate predicate Kept()
      reads this
    {
      && |old(leases)| <= |leases| && SameLeases(old(leases), leases[..|old(leases)|])
      && |old(calls)| <= |calls|
      && forall d :: 0 <= d < |old(calls)| && (old(calls)[d].Finished? || old(calls)[d].Rejected?) ==>
        calls[d] == old(calls)[d]
    }

    constructor ()
      ensures Valid() && leases == [] && calls == []
    {
      states, providers, connections, leases, calls := map[], map[], {}, [], [];
    }

    /** Grants a lease unless its state is taken or a needed listener cannot be opened. */
    method Acquire(provider: string, state: string, canListen: bool) returns (lease: Option<Lease>)
      requires Valid()
      modifies this
      ensures Valid() && Kept()
      ensures lease.Some? <==> state !in old(states) && (provider in old(providers) || canListen)
      ensures lease.None? ==> states == old(states) && providers == old(providers) && connections == old(connections)
      ensures lease.Some? ==>
        && lease.value == |old(leases)| && leases == old(leases) + [LeaseInfo(provider, state, Open, None)]
        && states == old(states)[state := lease.value] && connections == old(connections) + {lease.value}
    {
      hide Indexed, Phased, Exclusive, OneAnswer;
      if state in states || (provider !in providers && !canListen) {
        return None;
      }
      var l, info := |leases|, LeaseInfo(provider, state, Open, None);
      var own := if provider in providers then providers[provider] else map[];
      AcquireKeepsIndex(states, providers, leases, info);
      NewLease(states, connections, leases, calls, info);
      providers := providers[provider := own[state := l]];
      states := states[state := l];
      connections := connections + {l};
      leases := leases + [info];
      return Some(l);
    }

    // Termination runs once per lease, in four steps.

    method BeginTermination(l: Lease)
      requires Valid() && l < |leases|
      modifies this`leases
      ensures Valid() && Kept()
      ensures leases == old(leases)[l := leases[l]] && !leases[l].phase.Open?
    {
      hide Indexed, Phased, Exclusive, OneAnswer;
      if leases[l].phase.Open? {
        PhaseKeeps(states, connections, leases, l, Closing);
        SetPhase(l, Closing);
      }
    }

    method SetPhase(l: Lease, next: Phase)
      requires l < |leases| && Indexed(states, providers, leases) && Exclusive(leases, calls) &&
        OneAnswer(states, leases, calls)
      modifies this`leases
      ensures leases == old(leases)[l := old(leases)[l].(phase := next)] && SameLeases(old(leases), leases)
      ensures Indexed(states, providers, leases) && Exclusive(leases, calls) && OneAnswer(states, leases, calls)
    {
      hide Indexed, Phased, Exclusive, OneAnswer;
      ghost var was := leases;
      StillHolds(leases, l, next, calls);
      leases := leases[l := leases[l].(phase := next)];
      SameIndex(states, providers, was, leases);
      SameAnswer(states, was, leases, calls);
    }

    /** Takes the lease out of both indexes, and closes the listener with its last lease. */
    method ReleaseState(l: Lease)
      requires Indexed(states, providers, leases) && l < |leases|
      modifies this`states, this`providers
      ensures states == old(WithoutState(states, leases, l)) &&
        providers == old(WithoutLease(states, providers, leases, l))
      ensures forall s :: s in states <==> s in old(states) && !(s == leases[l].state && old(states)[s] == l)
      ensures forall s :: s in states ==> states[s] == old(states)[s]
    {
      if leases[l].state !in states || states[leases[l].state] != l {
        return;
      }
      var info := leases[l];
      states := states - {info.state};
      if info.provider !in providers {
        return;
      }
      var rest := providers[info.provider] - {info.state};
      providers := if rest == map[] then providers - {info.provider} else providers[info.provider := rest];
    }

    method TerminateRelease(l: Lease)
      requires Valid() && l < |leases|
      modifies this`states, this`providers, this`leases
      ensures Valid() && Kept()
      ensures old(leases)[l].phase.Closing? ==>
        && leases[l].phase.Released?
        && forall k :: 0 <= k < |leases| ==>
             (Pending(states, leases, k) <==> k != l && old(Pending(states, leases, k)))
      ensures leases == old(leases)[l := leases[l]]
      ensures !old(leases)[l].phase.Closing? ==> states == old(states) && leases == old(leases)
    {
      hide Indexed, Phased, Exclusive, OneAnswer;
      if leases[l].phase.Closing? {
        ReleaseKeepsIndex(states, providers, leases, l);
        ReleaseAnswer(states, leases, calls, l);
        FewerPending(states, WithoutState(states, leases, l), connections, leases);
        ReleaseState(l);
        PhaseKeeps(states, connections, leases, l, Released);
        SetPhase(l, Released);
      }
    }

    method TerminateDetach(l: Lease)
      requires Valid() && l < |leases|
      modifies this`connections, this`leases
      ensures Valid() && Kept()
      ensures old(leases)[l].phase.Released? ==> leases[l].phase.Detached? && connections == old(connections) - {l}
      ensures leases == old(leases)[l := leases[l]]
    {
      hide Indexed, Exclusive, OneAnswer;
      if leases[l].phase.Released? {
        PhaseKeeps(states, connections, leases, l, Detached);
        SetPhase(l, Detached);
        connections := connections - {l};
      }
    }

    method TerminateDone(l: Lease)
      requires Valid() && l < |leases|
      modifies this`leases
      ensures Valid() && Kept()
      ensures leases == old(leases)[l := leases[l]]
      ensures leases[l].phase == if old(leases)[l].phase.Detached? then Done else old(leases)[l].phase
    {
      hide Indexed, Exclusive, OneAnswer;
      if leases[l].phase.Detached? {
        PhaseKeeps(states, connections, leases, l, Done);
        assert connections - {l} == connections;
        SetPhase(l, Done);
      }
    }

    // A callback runs through these steps.

    method Dispatch(provider: string, state: string) returns (d: CallId)
      requires Valid()
      modifies this`calls
      ensures Valid() && Kept() && d == |old(calls)|
      ensures
        var pending := state in states && leases[states[state]].provider == provider;
        calls == old(calls) + [if pending then Looked(states[state]) else Rejected]
    {
      hide Phased;
      d := |calls|;
      if state in states && leases[states[state]].provider == provider {
        NewCall(states, leases, calls, Looked(states[state]));
        calls := calls + [Looked(states[state])];
      } else {
        NewCall(states, leases, calls, Rejected);
        calls := calls + [Rejected];
      }
    }

    /** Takes the transaction slot, or gives up if another callback has it. */
    method TakeSlot(d: CallId)
      requires Valid() && d < |calls| && calls[d].Looked?
      modifies this`calls, this`leases
      ensures Valid() && Kept()
      ensures var l := old(calls)[d].lease;
        && l < |old(leases)|
        && calls == old(calls)[d := if old(leases)[l].holder.None? then Holding(l) else Finished(l, Refused)]
    {
      hide Indexed, Phased, OneAnswer;
      var l := calls[d].lease;
      if leases[l].holder.None? {
        var after := leases[l := leases[l].(holder := Some(d))];
        FreePhased(states, connections, leases, l, Some(d));
        SameIndex(states, providers, leases, after);
        SameAnswer(states, leases, after, calls);
        MoveAnswer(states, states, after, calls, d, Holding(l));
        leases := after;
        calls := calls[d := Holding(l)];
      } else {
        MoveAnswer(states, states, leases, calls, d, Finished(l, Refused));
        calls := calls[d := Finished(l, Refused)];
      }
    }

    /** Lets go of the slot with an answer. */
    method Finish(d: CallId, answer: Answer)
      requires Valid() && d < |calls| && Holds(calls[d])
      requires Settled(Finished(calls[d].lease, answer)) ==> calls[d].Returning? && Settled(calls[d])
      modifies this`calls, this`leases
      ensures Valid() && Kept()
      ensures calls == old(calls)[d := Finished(old(calls)[d].lease, answer)]
    {
      hide Indexed, Phased;
      var l := calls[d].lease;
      ghost var was := leases;
      FreePhased(states, connections, leases, l, None);
      FreeKeeps(leases, calls, d, answer);
      MoveAnswer(states, states, leases, calls, d, Finished(l, answer));
      leases := Freed(leases, l);
      calls := calls[d := Finished(l, answer)];
      SameIndex(states, providers, was, leases);
      SameAnswer(states, was, leases, calls);
    }

    /** With the slot in hand, the lease must still be pending. */
    method CheckActive(d: CallId)
      requires Valid() && d < |calls| && calls[d].Holding?
      modifies this`calls, this`leases
      ensures Valid() && Kept()
      ensures var l := old(calls)[d].lease;
        calls == old(calls)[d := if Pending(states, old(leases), l) then Waiting(l) else Finished(l, Refused)]
    {
      hide Indexed, Phased, OneAnswer, Exclusive;
      var l := calls[d].lease;
      HolderKnown(leases, calls, d);
      if leases[l].state in states && states[leases[l].state] == l {
        WaiterIsAlone(states, leases, calls, d);
        MoveHolder(leases, calls, d, Waiting(l));
        MoveAnswer(states, states, leases, calls, d, Waiting(l));
        calls := calls[d := Waiting(l)];
      } else {
        Finish(d, Refused);
      }
    }

    /** A result arrives: one that settles the lease is acted upon first, others are returned as they are. */
    method Receive(d: CallId, status: int)
      requires Valid() && d < |calls| && calls[d].Waiting?
      modifies this`calls, this`leases
      ensures Valid() && Kept()
      ensures var l := old(calls)[d].lease;
        calls == old(calls)[d := if status == 200 || status == 409 then Got(l, status) else Finished(l, Result(status))]
    {
      hide Indexed, Phased, OneAnswer, Exclusive;
      if Final(status) {
        Move(d, Got(calls[d].lease, status));
      } else {
        Finish(d, Result(status));
      }
    }

    method Move(d: CallId, c: Call)
      requires Valid() && d < |calls| && calls[d].Waiting? && (c.Got? || c.Ending?) && c.lease == calls[d].lease
      modifies this`calls
      ensures Valid() && Kept() && calls == old(calls)[d := c]
    {
      hide Indexed, Phased, OneAnswer, Exclusive;
      WaiterIsAlone(states, leases, calls, d);
      MoveHolder(leases, calls, d, c);
      MoveAnswer(states, states, leases, calls, d, c);
      calls := calls[d := c];
    }

    /** Releases the state of a settled lease before the result is returned. */
    method Settle(d: CallId)
      requires Valid() && d < |calls| && calls[d].Got?
      modifies this`calls, this`states, this`providers
      ensures Valid() && Kept()
      ensures var c := old(calls)[d];
        && calls == old(calls)[d := Returning(c.lease, c.status)]
        && forall k :: 0 <= k < |leases| ==>
             (Pending(states, leases, k) <==> k != c.lease && old(Pending(states, leases, k)))
    {
      hide Indexed, Phased, OneAnswer, Exclusive;
      var l, c := calls[d].lease, Returning(calls[d].lease, calls[d].status);
      var states' := WithoutState(states, leases, l);
      HolderKnown(leases, calls, d);
      ReleaseKeepsIndex(states, providers, leases, l);
      ReleaseAnswer(states, leases, calls, l);
      FewerPending(states, states', connections, leases);
      MoveHolder(leases, calls, d, c);
      SettleAnswer(states, states', leases, calls, d);
      ReleaseState(l);
      calls := calls[d := c];
    }

    method Return(d: CallId)
      requires Valid() && d < |calls| && calls[d].Returning?
      modifies this`calls, this`leases
      ensures Valid() && Kept()
      ensures calls == old(calls)[d := Finished(old(calls)[d].lease, Result(old(calls)[d].status))]
    {
      hide Indexed, Phased, OneAnswer, Exclusive;
      Finish(d, Result(calls[d].status));
    }

    /** The write failed, the answer is late or the request was cancelled: the callback ends the lease. */
    method Abort(d: CallId)
      requires Valid() && d < |calls| && calls[d].Waiting?
      modifies this`calls, this`leases
      ensures Valid() && Kept()
      ensures calls == old(calls)[d := Ending(old(calls)[d].lease)] && !leases[calls[d].lease].phase.Open?
    {
      hide Indexed, Phased, OneAnswer, Exclusive;
      HolderKnown(leases, calls, d);
      Move(d, Ending(calls[d].lease));
      BeginTermination(calls[d].lease);
    }

    /** A callback fails once the done channel of its lease is closed. */
    method SeeDone(d: CallId)
      requires Valid() && d < |calls| && (calls[d].Waiting? || calls[d].Ending?)
      modifies this`calls, this`leases
      ensures Valid() && Kept()
      ensures var l := old(calls)[d].lease;
        && l < |old(leases)|
        && calls == if old(leases)[l].phase.Done? then old(calls)[d := Finished(l, Failed)] else old(calls)
    {
      hide Indexed, Phased, OneAnswer, Exclusive;
      HolderKnown(leases, calls, d);
      if leases[calls[d].lease].phase.Done? {
        Finish(d, Failed);
      }
    }

    // ---------- What holds in every interleaving ----------

    /** A lease is answered OK at most once. */
    lemma OneOk(c: CallId, d: CallId)
      requires Valid() && c < |calls| && d < |calls|
      requires calls[c].Finished? && calls[d].Finished? && calls[c].lease == calls[d].lease
      requires calls[c].answer == Result(200) && calls[d].answer == Result(200)
      ensures c == d
    {
      assert Settled(calls[c]) && Concerns(calls[d], calls[c].lease);
    }

    /** A listener is registered exactly while one of its leases is pending. */
    lemma ListenerIffPending(p: string)
      requires Valid()
      ensures p in providers <==> exists l :: 0 <= l < |leases| && Pending(states, leases, l) && leases[l].provider == p
    {
      hide Phased, OneAnswer, Exclusive;
      if p in providers {
        var s :| s in providers[p];
        assert states[s] == providers[p][s] && Pending(states, leases, states[s]);
      }
    }

    /** The global map and the maps of the providers hold the same leases. */
    lemma SameIndexes(l: Lease)
      requires Valid() && l < |leases|
      ensures Pending(states, leases, l) <==>
        var p, s := leases[l].provider, leases[l].state; p in providers && s in providers[p] && providers[p][s] == l
    {
    }

    /** A lease whose done channel is closed is in no index. */
    lemma DoneIsGone(l: Lease)
      requires Valid() && l < |leases| && leases[l].phase.Done?
      ensures l !in connections && (forall s :: s in states ==> states[s] != l)
      ensures forall p, s :: p in providers && s in providers[p] ==> providers[p][s] != l
    {
      hide OneAnswer, Exclusive;
      forall s | s in states ensures states[s] != l {
        assert Pending(states, leases, states[s]);
      }
      forall p, s | p in providers && s in providers[p] ensures providers[p][s] != l {
        assert s in states && states[s] == providers[p][s];
      }
    }

    lemma IndexedIsAlive()
      requires Valid()
      ensures forall s :: s in states ==> states[s] < |leases| && !leases[states[s]].phase.Done?
      ensures forall p :: p in providers ==> exists s :: s in providers[p] && s in states
      ensures forall l :: l in connections ==> l < |leases| && !leases[l].phase.Done?
    {
      hide OneAnswer, Exclusive;
      forall s | s in states ensures !leases[states[s]].phase.Done? {
        assert Pending(states, leases, states[s]);
      }
      forall p | p in providers ensures exists s :: s in providers[p] && s in states {
        var s :| s in providers[p];
      }
    }

    /** When every lease is done, nothing is left. */
    lemma AllDone()
      requires Valid() && forall l :: 0 <= l < |leases| ==> leases[l].phase.Done?
      ensures states == map[] && providers == map[] && connections == {}
    {
      hide Indexed, Phased, Exclusive, OneAnswer;
      IndexedIsAlive();
    }

    /** One atomic step of any connection or callback; steps that cannot be taken do nothing. */
    method Perform(e: Event)
      requires Valid()
      modifies this
      ensures Valid() && Kept()
    {
      hide Indexed, Phased, Exclusive, OneAnswer;
      match e {
        case Acquiring(provider, state, canListen) => var _ := Acquire(provider, state, canListen);
        case Dispatching(provider, state) => var _ := Dispatch(provider, state);
        case Terminating(l) => Terminate(l);
        case Calling(d, status, cancelled) => Advance(d, status, cancelled);
      }
    }

    /** The next step of ending a lease. */
    method Terminate(l: Lease)
      requires Valid()
      modifies this
      ensures Valid() && Kept()
    {
      hide Indexed, Phased, Exclusive, OneAnswer;
      if l < |leases| {
        match leases[l].phase {
          case Open => BeginTermination(l);
          case Closing => TerminateRelease(l);
          case Released => TerminateDetach(l);
          case Detached => TerminateDone(l);
          case Done =>
        }
      }
    }

    /** The next step of a callback. */
    method Advance(d: CallId, status: Option<int>, cancelled: bool)
      requires Valid()
      modifies this
      ensures Valid() && Kept()
    {
      hide Indexed, Phased, Exclusive, OneAnswer;
      if d < |calls| {
        match calls[d] {
          case Looked(_) => TakeSlot(d);
          case Holding(_) => CheckActive(d);
          case Waiting(_) =>
            if status.Some? {
              Receive(d, status.value);
            } else if cancelled {
              Abort(d);
            } else {
              SeeDone(d);
            }
          case Ending(_) => SeeDone(d);
          case Got(_, _) => Settle(d);
          case Returning(_, _) => Return(d);
          case Rejected =>
          case Finished(_, _) =>
        }
      }
    }

    /** Every run, in any order of steps, keeps the indexes consistent and answers each lease OK at most once. */
    method Drive(events: seq<Event>)
      requires Valid()
      modifies this
      ensures Valid() && Kept()
    {
      hide Indexed, Phased, Exclusive, OneAnswer;
      for i := 0 to |events|
        invariant Valid() && Kept()
      {
        Perform(events[i]);
      }
    }
  }

  lemma HolderKnown(leases: seq<LeaseInfo>, calls: seq<Call>, d: CallId)
    requires Exclusive(leases, calls) && d < |calls| && !calls[d].Rejected?
    ensures calls[d].lease < |leases|
  {
  }

  lemma NewCall(states: States, leases: seq<LeaseInfo>, calls: seq<Call>, c: Call)
    requires Exclusive(leases, calls) && OneAnswer(states, leases, calls)
    requires c.Rejected? || (c.Looked? && c.lease < |leases|)
    ensures Exclusive(leases, calls + [c]) && OneAnswer(states, leases, calls + [c])
  {
    assert forall d :: 0 <= d < |calls| ==> (calls + [c])[d] == calls[d];
  }

  lemma SettleAnswer(states: States, states': States, leases: seq<LeaseInfo>, calls: seq<Call>, d: CallId)
    requires OneAnswer(states, leases, calls) && d < |calls| && calls[d].Got?
    requires forall l :: 0 <= l < |leases| && Pending(states', leases, l) ==> Pending(states, leases, l)
    requires !Pending(states', leases, calls[d].lease)
    ensures OneAnswer(states', leases, calls[d := Returning(calls[d].lease, calls[d].status)])
  {
    hide OneAnswer;
    MoveAnswer(states, states', leases, calls, d, Returning(calls[d].lease, calls[d].status));
  }

  lemma NewLease(states: States, connections: set<Lease>, leases: seq<LeaseInfo>, calls: seq<Call>, info: LeaseInfo)
    requires Phased(states, connections, leases) && Exclusive(leases, calls) && OneAnswer(states, leases, calls)
    requires info.state !in states && info.phase.Open? && info.holder.None?
    ensures var states', leases' := states[info.state := |leases|], leases + [info];
      && Phased(states', connections + {|leases|}, leases')
      && Exclusive(leases', calls) && OneAnswer(states', leases', calls)
  {
    var states', leases' := states[info.state := |leases|], leases + [info];
    assert leases'[|leases|] == info && forall l :: 0 <= l < |leases| ==> leases'[l] == leases[l];
    forall l | 0 <= l < |leases| && Pending(states', leases', l) ensures Pending(states, leases, l) {
    }
  }

  lemma ReleaseAnswer(states: States, leases: seq<LeaseInfo>, calls: seq<Call>, l: Lease)
    requires OneAnswer(states, leases, calls)
    ensures OneAnswer(WithoutState(states, leases, l), leases, calls)
    ensures forall k :: 0 <= k < |leases| && Pending(WithoutState(states, leases, l), leases, k) ==>
      Pending(states, leases, k)
  {
  }
}
