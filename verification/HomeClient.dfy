/**
 The fence of the Home client. Closing or aborting a client first raises the fence and later, in one critical section,
 detaches its pools and connections; dialers and callers that create pools run at the same time. Every method here is
 one atomic step, and steps may come in any order.
 */
module HomeClient {
  import opened Options

  /** Pools and connections are named by their place among all that were ever made. */
  type PoolId = nat
  type ConnId = nat

  datatype Address = Address(host: string, port: int)

  /** A pool is installed, on the way to being closed, or closed. */
  datatype Stage = Installed | Doomed | Closed

  datatype Pool = Pool(address: Address, stage: Stage)

  /** A connection is still with its dialer, registered, on the way to being closed, or closed. */
  datatype Conn = Dialed | Registered | Leaving | Gone

  datatype Recovery = Stable | TakeoverEligible | Switching | SwitchingTakeover

  datatype Refusal = Fenced | Disabled | BadAddress | BadOptions | NotConnected

  function Slots(cmd: Option<PoolId>, sub: Option<PoolId>, release: Option<PoolId>): (r: set<PoolId>)
    ensures forall p :: p in r <==> cmd == Some(p) || sub == Some(p) || release == Some(p)
  {
    (if cmd.Some? then {cmd.value} else {})
    + (if sub.Some? then {sub.value} else {})
    + (if release.Some? then {release.value} else {})
  }

  predicate Distinct(cmd: Option<PoolId>, sub: Option<PoolId>, release: Option<PoolId>) {
    && (cmd.Some? ==> cmd != sub && cmd != release)
    && (sub.Some? ==> sub != release)
  }

  /** Exactly the pools in a slot are installed, and they lead to the given address. */
  ghost predicate PoolsOk(pools: seq<Pool>, installed: set<PoolId>, address: Address) {
    && (forall p :: p in installed ==> p < |pools|)
    && (forall p :: 0 <= p < |pools| ==> (pools[p].stage.Installed? <==> p in installed))
    && (forall p :: p in installed ==> pools[p].address == address)
  }

  /** Exactly the connections in the set are registered. */
  ghost predicate ConnsOk(conns: seq<Conn>, connections: set<ConnId>) {
    && (forall c :: c in connections ==> c < |conns|)
    && (forall c :: 0 <= c < |conns| ==> (conns[c].Registered? <==> c in connections))
  }

  function Dooming(pools: seq<Pool>, leaving: set<PoolId>): (r: seq<Pool>)
    ensures |r| == |pools|
    ensures forall p :: 0 <= p < |pools| ==> r[p] == if p in leaving then pools[p].(stage := Doomed) else pools[p]
  {
    seq(|pools|, p requires 0 <= p < |pools| => if p in leaving then pools[p].(stage := Doomed) else pools[p])
  }

  function Expelling(conns: seq<Conn>, leaving: set<ConnId>): (r: seq<Conn>)
    ensures |r| == |conns|
    ensures forall c :: 0 <= c < |conns| ==> r[c] == if c in leaving then Leaving else conns[c]
  {
    seq(|conns|, c requires 0 <= c < |conns| => if c in leaving then Leaving else conns[c])
  }

  predicate Later(before: Stage, after: Stage) {
    before == after || before.Installed? || (before.Doomed? && after.Closed?)
  }

  ghost predicate Idempotent(trim: string -> string) {
    forall s :: trim(trim(s)) == trim(s)
  }

  datatype Event =
    | RaisingFence(abort: bool)
    | Ending
    | ClosingBootstrapPools
    | SwitchingNode(ip: string, port: int)
    | EnsuringClients(cmdOptions: bool, subOptions: bool)
    | OpeningRelease(options: bool)
    | Promoting
    | ClosingPool(p: PoolId)
    | Dialing
    | Registering(c: ConnId)
    | Unregistering(c: ConnId)
    | Shutting(c: ConnId)
    | Recovering(next: Recovery)

  class Client {
    const trim: string -> string
    const enabled: bool
    var host: string
    var port: int
    var cmd: Option<PoolId>
    var sub: Option<PoolId>
    var release: Option<PoolId>
    var connections: set<ConnId>
    var fenced: bool
    var ambiguous: bool
    var recovery: Recovery
    var pools: seq<Pool>
    var conns: seq<Conn>
    ghost var ended: bool

    function CurrentAddress(): Address
      reads this
    {
      Address(trim(host), port)
    }

    ghost predicate Valid()
      reads this
    {
      && Idempotent(trim)
      && Distinct(cmd, sub, release)
      && PoolsOk(pools, Slots(cmd, sub, release), CurrentAddress())
      && ConnsOk(conns, connections)
      && (ended ==> fenced && Empty())
    }

    /** No pool is installed and no connection is registered. */
    predicate Empty()
      reads this
    {
      cmd.None? && sub.None? && release.None? && connections == {}
    }

    /** The fence is never lowered, an ended client stays ended, and what is closed is never installed again. */
    twostate predicate Kept()
      reads this
    {
      && (old(fenced) ==> fenced) && (old(ended) ==> ended)
      && |old(pools)| <= |pools| && |old(conns)| <= |conns|
      && (forall p :: 0 <= p < |old(pools)| ==>
            pools[p].address == old(pools)[p].address && Later(old(pools)[p].stage, pools[p].stage))
      && (forall c :: 0 <= c < |old(conns)| && old(conns)[c].Gone? ==> conns[c].Gone?)
    }

    constructor (trim: string -> string, enabled: bool, host: string, port: int)
      requires Idempotent(trim)
      ensures Valid() && Empty() && !fenced && !ended && pools == [] && conns == []
    {
      this.trim, this.enabled, this.host, this.port := trim, enabled, host, port;
      cmd, sub, release, connections := None, None, None, {};
      fenced, ambiguous, recovery, pools, conns := false, false, Stable, [], [];
      ended := false;
    }

    /** The first step of Close and of AbortAmbiguousDispatch, before the lock is taken. */
    method RaiseFence(abort: bool)
      requires Valid()
      modifies this`fenced, this`ambiguous
      ensures Valid() && Kept() && fenced
    {
      if abort {
        ambiguous := true;
      }
      fenced := true;
    }

    /** Takes the pools and connections out; what is taken out is to be closed by the caller. */
    method Detach(withRelease: bool)
      requires Valid()
      modifies this`cmd, this`sub, this`release, this`connections, this`pools, this`conns
      ensures Valid() && Kept()
      ensures cmd.None? && sub.None? && connections == {} && release == if withRelease then None else old(release)
      ensures forall p :: p in Slots(old(cmd), old(sub), if withRelease then old(release) else None) ==>
        p < |pools| && pools[p].stage.Doomed?
      ensures forall c :: c in old(connections) ==> c < |conns| && conns[c].Leaving?
    {
      var leaving := Slots(cmd, sub, if withRelease then release else None);
      pools := Dooming(pools, leaving);
      conns := Expelling(conns, connections);
      cmd, sub, connections := None, None, {};
      if withRelease {
        release := None;
      }
    }

    /** The critical section of Close and of AbortAmbiguousDispatch. */
    method End()
      requires Valid() && fenced
      modifies this`cmd, this`sub, this`release, this`connections, this`pools, this`conns, this`ended
      ensures Valid() && Kept() && ended && Empty()
    {
      Detach(true);
      ended := true;
    }

    /** Replaces the pools used for bootstrapping; the release pool stays. */
    method CloseBootstrapPools()
      requires Valid()
      modifies this`cmd, this`sub, this`release, this`connections, this`pools, this`conns
      ensures Valid() && Kept() && release == old(release)
      ensures cmd.None? && sub.None? && connections == {}
    {
      Detach(false);
    }

    /** Moves to another Home node: every pool that leads to the old one is detached in the same critical section. */
    method SwitchToNode(ip: string, nodePort: int) returns (switched: bool)
      requires Valid()
      modifies this
      ensures Valid() && Kept()
      ensures switched <==> trim(ip) != "" && nodePort > 0 && Address(trim(ip), nodePort) != old(CurrentAddress())
      ensures switched ==>
        CurrentAddress() == Address(trim(ip), nodePort) && Empty() && !recovery.Stable? && !recovery.TakeoverEligible?
      ensures !switched ==>
        CurrentAddress() == old(CurrentAddress()) && cmd == old(cmd) && sub == old(sub) && release == old(release)
    {
      var target := trim(ip);
      if target == "" || nodePort <= 0 {
        return false;
      }
      if trim(host) == target && port == nodePort {
        return false;
      }
      Detach(true);
      host, port := target, nodePort;
      if recovery.Stable? {
        recovery := Switching;
      } else if recovery.TakeoverEligible? {
        recovery := SwitchingTakeover;
      }
      return true;
    }

    /** A new pool for the current address. */
    method NewPool() returns (p: PoolId)
      modifies this`pools
      ensures p == |old(pools)| && pools == old(pools) + [Pool(CurrentAddress(), Installed)]
    {
      p := |pools|;
      pools := pools + [Pool(CurrentAddress(), Installed)];
    }

    method InstallCommandPool()
      requires Valid() && !fenced && cmd.None?
      modifies this`cmd, this`pools
      ensures Valid() && Kept() && cmd.Some?
    {
      var p := NewPool();
      cmd := Some(p);
    }

    method InstallSubscriptionPool()
      requires Valid() && !fenced && sub.None?
      modifies this`sub, this`pools
      ensures Valid() && Kept() && sub.Some?
    {
      var p := NewPool();
      sub := Some(p);
    }

    /** Creates the command and subscription pools that are missing, unless the fence is up. */
    method EnsureClients(cmdOptions: bool, subOptions: bool) returns (refusal: Option<Refusal>)
      requires Valid()
      modifies this`cmd, this`sub, this`pools
      ensures Valid() && Kept()
      ensures fenced ==> refusal == Some(Fenced) && cmd == old(cmd) && sub == old(sub)
      ensures !enabled && !fenced ==> refusal == Some(Disabled) && cmd == old(cmd) && sub == old(sub)
      ensures refusal.None? <==>
        && !fenced && enabled && trim(host) != "" && port > 0
        && (old(cmd).None? ==> cmdOptions) && (old(sub).None? ==> subOptions)
      ensures refusal.None? ==> cmd.Some? && sub.Some?
      ensures old(cmd).Some? ==> cmd == old(cmd)
      ensures old(sub).Some? ==> sub == old(sub)
    {
      hide PoolsOk, ConnsOk, Distinct, Idempotent;
      if fenced {
        return Some(Fenced);
      }
      if !enabled {
        return Some(Disabled);
      }
      if trim(host) == "" || port <= 0 {
        return Some(BadAddress);
      }
      if cmd.None? {
        if !cmdOptions {
          return Some(BadOptions);
        }
        InstallCommandPool();
      }
      if sub.None? {
        if !subOptions {
          return Some(BadOptions);
        }
        InstallSubscriptionPool();
      }
      return None;
    }

    /** The pool for release frames, which is not created while membership is being recovered. */
    method ReleaseClient(options: bool) returns (refusal: Option<Refusal>)
      requires Valid()
      modifies this`release, this`pools
      ensures Valid() && Kept()
      ensures fenced ==> refusal == Some(Fenced) && release == old(release)
      ensures !recovery.Stable? || !enabled ==> refusal.Some? && release == old(release)
      ensures refusal.None? <==>
        && !fenced && recovery.Stable? && enabled
        && (old(release).None? ==> trim(host) != "" && port > 0 && options)
      ensures refusal.None? ==> release.Some? && pools[release.value].address == CurrentAddress()
    {
      if fenced {
        return Some(Fenced);
      }
      if !recovery.Stable? {
        return Some(NotConnected);
      }
      if !enabled {
        return Some(Disabled);
      }
      if release.Some? {
        return None;
      }
      if trim(host) == "" || port <= 0 {
        return Some(BadAddress);
      }
      if !options {
        return Some(BadOptions);
      }
      var p := NewPool();
      release := Some(p);
      return None;
    }

    /** Drops the command pool so that the next caller builds a new one. */
    method PromoteSubscription()
      requires Valid()
      modifies this`cmd, this`pools
      ensures Valid() && Kept() && cmd.None?
      ensures old(cmd).Some? ==> old(cmd).value < |pools| && pools[old(cmd).value].stage.Doomed?
    {
      pools := Dooming(pools, Slots(cmd, None, None));
      cmd := None;
    }

    method ClosePool(p: PoolId)
      requires Valid() && p < |pools| && pools[p].stage.Doomed?
      modifies this`pools
      ensures Valid() && Kept() && pools[p].stage.Closed?
    {
      pools := pools[p := pools[p].(stage := Closed)];
    }

    /** A dialer has connected; nobody else knows of the connection yet. */
    method Dial() returns (c: ConnId)
      requires Valid()
      modifies this`conns
      ensures Valid() && Kept() && c == |old(conns)| && conns == old(conns) + [Dialed]
    {
      c := |conns|;
      conns := conns + [Dialed];
    }

    /** Registers the connection, or closes it if the fence is up. */
    method Register(c: ConnId) returns (ok: bool)
      requires Valid() && c < |conns| && conns[c].Dialed?
      modifies this`connections, this`conns
      ensures Valid() && Kept() && ok == !fenced
      ensures if ok then connections == old(connections) + {c} else connections == old(connections) && conns[c].Leaving?
    {
      if fenced {
        conns := conns[c := Leaving];
        return false;
      }
      connections := connections + {c};
      conns := conns[c := Registered];
      return true;
    }

    /** The first half of closing a connection, done once: it leaves the set. */
    method Unregister(c: ConnId)
      requires Valid() && c < |conns| && !conns[c].Gone?
      modifies this`connections, this`conns
      ensures Valid() && Kept() && conns[c].Leaving? && connections == old(connections) - {c}
    {
      connections := connections - {c};
      conns := conns[c := Leaving];
    }

    method Shut(c: ConnId)
      requires Valid() && c < |conns| && conns[c].Leaving?
      modifies this`conns
      ensures Valid() && Kept() && conns[c].Gone?
    {
      conns := conns[c := Gone];
    }

    method SetRecovery(next: Recovery)
      requires Valid()
      modifies this`recovery
      ensures Valid() && Kept() && recovery == next
    {
      recovery := next;
    }

    /** One atomic step of any caller, dialer or closer; steps that cannot be taken do nothing. */
    method Perform(e: Event)
      requires Valid()
      modifies this
      ensures Valid() && Kept()
    {
      hide PoolsOk, ConnsOk, Distinct, Idempotent;
      match e {
        case RaisingFence(abort) => RaiseFence(abort);
        case Ending => if fenced { End(); }
        case ClosingBootstrapPools => CloseBootstrapPools();
        case SwitchingNode(ip, nodePort) => var _ := SwitchToNode(ip, nodePort);
        case EnsuringClients(cmdOptions, subOptions) => var _ := EnsureClients(cmdOptions, subOptions);
        case OpeningRelease(options) => var _ := ReleaseClient(options);
        case Promoting => PromoteSubscription();
        case ClosingPool(p) => if p < |pools| && pools[p].stage.Doomed? { ClosePool(p); }
        case Dialing => var _ := Dial();
        case Registering(c) => if c < |conns| && conns[c].Dialed? { var _ := Register(c); }
        case Unregistering(c) => if c < |conns| && !conns[c].Gone? { Unregister(c); }
        case Shutting(c) => if c < |conns| && conns[c].Leaving? { Shut(c); }
        case Recovering(next) => SetRecovery(next);
      }
    }

    /**
     Over every run: a client that has ended never has a pool or a registered connection again; every installed pool
     leads to the current Home address and every other one is being closed or closed; and a connection that has left
     its dialer is registered, about to be closed, or closed.
     */
    method Drive(events: seq<Event>)
      requires Valid()
      modifies this
      ensures Valid() && Kept()
      ensures old(ended) ==> fenced && Empty()
      ensures forall p :: 0 <= p < |pools| ==>
        if p in Slots(cmd, sub, release) then pools[p] == Pool(CurrentAddress(), Installed)
        else !pools[p].stage.Installed?
      ensures forall c :: 0 <= c < |conns| && !conns[c].Dialed? ==>
        c in connections || conns[c].Leaving? || conns[c].Gone?
    {
      for i := 0 to |events|
        invariant Valid() && Kept()
      {
        hide PoolsOk, ConnsOk, Distinct, Idempotent;
        Perform(events[i]);
      }
    }
  }
}
