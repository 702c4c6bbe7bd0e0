/**
 The release flusher: cumulative release sequences per group are sent to Home, and tickets are completed once a
 sequence at least as high as theirs has been accepted. `MarkDirty` may run at any point of a flush at which the lock
 is free. What tickets were issued for, which are closed and what was sent is ghost history.
 */
module ReleaseFlusher {
  import opened Options

  datatype Group = Group(credential: string, model: string)

  /** A ticket is named by its place among all tickets issued; its channel is closed or not. */
  type Ticket = nat

  datatype Order = Order(group: Group, sequence: int)

  datatype ReleaseState = ReleaseState(latest: int, acked: int, waiters: map<int, seq<Ticket>>)

  datatype Frame = Frame(group: Group, sequence: int)

  /** What happens while the lock is free: calls to MarkDirty before and after the send, and how the send ends. */
  datatype Round = Round(before: seq<Order>, after: seq<Order>, ok: bool)

  /** What callers and the run loop ask for. */
  datatype Work = Mark(order: Order) | FlushAll(hasSender: bool, rounds: nat -> Round)

  const NEW_GROUP := ReleaseState(0, 0, map[])

  function StateOf(groups: map<Group, ReleaseState>, group: Group): ReleaseState {
    if group in groups then groups[group] else NEW_GROUP
  }

  predicate NoDuplicates(list: seq<Ticket>) {
    forall i, j :: 0 <= i < j < |list| ==> list[i] != list[j]
  }

  /** A list of waiters holds tickets of its group and sequence, each once. */
  ghost predicate ListOk(tickets: seq<Order>, group: Group, sequence: int, list: seq<Ticket>) {
    NoDuplicates(list) && forall t :: t in list ==> t < |tickets| && tickets[t] == Order(group, sequence)
  }

  /** Waiting sequences lie above what is acknowledged and not above the latest. */
  ghost predicate GroupOk(tickets: seq<Order>, group: Group, st: ReleaseState) {
    && 0 <= st.acked <= st.latest
    && forall s :: s in st.waiters ==> st.acked < s <= st.latest && ListOk(tickets, group, s, st.waiters[s])
  }

  /** A ticket is closed exactly if its sequence is acknowledged; otherwise it is waiting. */
  ghost predicate TicketOk(groups: map<Group, ReleaseState>, order: Order, t: Ticket, isClosed: bool) {
    && order.group in groups && order.sequence > 0
    && (isClosed <==> order.sequence <= groups[order.group].acked)
    && (!isClosed ==>
          var waiters := groups[order.group].waiters;
          order.sequence in waiters && t in waiters[order.sequence])
  }

  ghost predicate Consistent(groups: map<Group, ReleaseState>, tickets: seq<Order>, closed: set<Ticket>) {
    && (forall g :: g in groups ==> GroupOk(tickets, g, groups[g]))
    && (forall t :: 0 <= t < |tickets| ==> TicketOk(groups, tickets[t], t, t in closed))
    && (forall t :: t in closed ==> t < |tickets|)
  }

  /** Acknowledged sequences were accepted, and the frames of a group never decrease. */
  ghost predicate FramesOk(groups: map<Group, ReleaseState>, frames: seq<Frame>, accepted: set<Frame>) {
    && (forall g :: g in groups && groups[g].acked > 0 ==> Frame(g, groups[g].acked) in accepted)
    && (forall f :: f in accepted ==> f in frames)
    && (forall i :: 0 <= i < |frames| ==>
          frames[i].group in groups && frames[i].sequence <= groups[frames[i].group].latest)
    && (forall i, j :: 0 <= i < j < |frames| && frames[i].group == frames[j].group ==>
          frames[i].sequence <= frames[j].sequence)
  }

  // ---------- The changes, on values ----------

  function Marked(st: ReleaseState, sequence: int, t: Ticket): ReleaseState {
    ReleaseState(
      if sequence > st.latest then sequence else st.latest,
      st.acked,
      st.waiters[sequence := (if sequence in st.waiters then st.waiters[sequence] else []) + [t]])
  }

  lemma MarkListOk(tickets: seq<Order>, order: Order, group: Group, s: int, list: seq<Ticket>)
    requires ListOk(tickets, group, s, list)
    ensures ListOk(tickets + [order], group, s, list)
    ensures order == Order(group, s) ==> ListOk(tickets + [order], group, s, list + [|tickets|])
  {
    forall i | 0 <= i < |list| ensures list[i] < |tickets| {
      assert list[i] in list;
    }
  }

  lemma EmptyListOk(tickets: seq<Order>, group: Group, s: int)
    ensures ListOk(tickets, group, s, [])
  {
  }

  lemma NewGroupOk(tickets: seq<Order>, group: Group)
    ensures GroupOk(tickets, group, NEW_GROUP)
  {
  }

  lemma GroupBounds(tickets: seq<Order>, group: Group, st: ReleaseState)
    requires GroupOk(tickets, group, st)
    ensures 0 <= st.acked <= st.latest
  {
  }

  lemma MarkGroupOk(tickets: seq<Order>, order: Order, st: ReleaseState)
    requires GroupOk(tickets, order.group, st) && order.sequence > st.acked
    ensures GroupOk(tickets + [order], order.group, Marked(st, order.sequence, |tickets|))
  {
    hide ListOk;
    var next := Marked(st, order.sequence, |tickets|);
    forall s | s in next.waiters ensures ListOk(tickets + [order], order.group, s, next.waiters[s]) {
      if s in st.waiters {
        MarkListOk(tickets, order, order.group, s, st.waiters[s]);
      } else {
        assert [] + [|tickets|] == [|tickets|];
        EmptyListOk(tickets, order.group, s);
        MarkListOk(tickets, order, order.group, s, []);
      }
    }
  }

  lemma MoreTickets(tickets: seq<Order>, order: Order, group: Group, st: ReleaseState)
    requires GroupOk(tickets, group, st)
    ensures GroupOk(tickets + [order], group, st)
  {
    hide ListOk;
    forall s | s in st.waiters ensures ListOk(tickets + [order], group, s, st.waiters[s]) {
      MarkListOk(tickets, order, group, s, st.waiters[s]);
    }
  }

  /** A ticket for a sequence that is not acknowledged joins the waiters of its group. */
  lemma MarkKeeps(groups: map<Group, ReleaseState>, tickets: seq<Order>, closed: set<Ticket>, order: Order)
    requires Consistent(groups, tickets, closed) && order.sequence > StateOf(groups, order.group).acked
    ensures var st := Marked(StateOf(groups, order.group), order.sequence, |tickets|);
      Consistent(groups[order.group := st], tickets + [order], closed)
  {
    hide GroupOk;
    var was := StateOf(groups, order.group);
    NewGroupOk(tickets, order.group);
    GroupBounds(tickets, order.group, was);
    var st := Marked(was, order.sequence, |tickets|);
    var after, issued := groups[order.group := st], tickets + [order];
    MarkGroupOk(tickets, order, was);
    forall g | g in after ensures GroupOk(issued, g, after[g]) {
      if g != order.group {
        MoreTickets(tickets, order, g, groups[g]);
      }
    }
    forall t | 0 <= t < |issued| ensures TicketOk(after, issued[t], t, t in closed) {
      if t < |tickets| {
        assert TicketOk(groups, tickets[t], t, t in closed);
      }
    }
  }

  /** A ticket for a sequence that is acknowledged is closed at once. */
  lemma MarkDoneKeeps(groups: map<Group, ReleaseState>, tickets: seq<Order>, closed: set<Ticket>, order: Order)
    requires Consistent(groups, tickets, closed) && order.group in groups &&
      0 < order.sequence <= groups[order.group].acked
    ensures Consistent(groups, tickets + [order], closed + {|tickets|})
  {
    hide GroupOk;
    forall g | g in groups ensures GroupOk(tickets + [order], g, groups[g]) {
      MoreTickets(tickets, order, g, groups[g]);
    }
    forall t | 0 <= t < |tickets| ensures TicketOk(groups, tickets[t], t, t in closed + {|tickets|}) {
    }
  }

  function Reached(waiters: map<int, seq<Ticket>>, sequence: int): (r: map<int, seq<Ticket>>)
    ensures forall s :: s in r <==> s in waiters && s <= sequence
    ensures forall s :: s in r ==> r[s] == waiters[s]
  {
    map s | s in waiters && s <= sequence :: waiters[s]
  }

  function Acknowledged(st: ReleaseState, sequence: int): ReleaseState {
    ReleaseState(st.latest, sequence, st.waiters - Reached(st.waiters, sequence).Keys)
  }

  ghost predicate IsClosing(waiters: map<int, seq<Ticket>>, sequence: int, closing: set<Ticket>) {
    && (forall s, t :: s in waiters && s <= sequence && t in waiters[s] ==> t in closing)
    && (forall t :: t in closing ==> exists s :: s in waiters && s <= sequence && t in waiters[s])
  }

  /** Acknowledging a sequence and closing the tickets that it reaches. */
  lemma AckKeeps(groups: map<Group, ReleaseState>, tickets: seq<Order>, closed: set<Ticket>, group: Group,
                 sequence: int, closing: set<Ticket>)
    requires Consistent(groups, tickets, closed) && group in groups
    requires groups[group].acked < sequence <= groups[group].latest
    requires IsClosing(groups[group].waiters, sequence, closing)
    ensures Consistent(groups[group := Acknowledged(groups[group], sequence)], tickets, closed + closing)
  {
    hide ListOk;
    var st := groups[group];
    var after := groups[group := Acknowledged(st, sequence)];
    assert GroupOk(tickets, group, st);
    forall t | 0 <= t < |tickets| ensures TicketOk(after, tickets[t], t, t in closed + closing) {
      AckTicket(groups, tickets, closed, group, sequence, closing, t);
    }
    forall t | t in closing ensures t < |tickets| {
      ClosingIsIssued(tickets, group, st, sequence, closing, t);
    }
  }

  lemma ClosingIsIssued(tickets: seq<Order>, group: Group, st: ReleaseState, sequence: int, closing: set<Ticket>,
                        t: Ticket)
    requires GroupOk(tickets, group, st) && IsClosing(st.waiters, sequence, closing) && t in closing
    ensures t < |tickets| && tickets[t].group == group && tickets[t].sequence <= sequence
  {
    var s :| s in st.waiters && s <= sequence && t in st.waiters[s];
    assert ListOk(tickets, group, s, st.waiters[s]);
  }

  lemma AckTicket(groups: map<Group, ReleaseState>, tickets: seq<Order>, closed: set<Ticket>, group: Group,
                  sequence: int, closing: set<Ticket>, t: Ticket)
    requires Consistent(groups, tickets, closed) && group in groups && t < |tickets|
    requires groups[group].acked < sequence
    requires IsClosing(groups[group].waiters, sequence, closing)
    ensures TicketOk(groups[group := Acknowledged(groups[group], sequence)], tickets[t], t, t in closed + closing)
  {
    hide ListOk, GroupOk;
    var st := groups[group];
    assert GroupOk(tickets, group, st);
    assert TicketOk(groups, tickets[t], t, t in closed);
    if t in closing {
      ClosingIsIssued(tickets, group, st, sequence, closing, t);
    }
  }

  /** Raising what a group has recorded keeps its frames in order, if what it has acknowledged was accepted. */
  lemma FramesRaised(groups: map<Group, ReleaseState>, frames: seq<Frame>, accepted: set<Frame>, group: Group,
                     st: ReleaseState)
    requires FramesOk(groups, frames, accepted) && StateOf(groups, group).latest <= st.latest
    requires st.acked == StateOf(groups, group).acked || Frame(group, st.acked) in accepted
    ensures FramesOk(groups[group := st], frames, accepted)
  {
  }

  lemma StateBounds(groups: map<Group, ReleaseState>, tickets: seq<Order>, closed: set<Ticket>, group: Group)
    requires Consistent(groups, tickets, closed)
    ensures 0 <= StateOf(groups, group).acked <= StateOf(groups, group).latest
  {
    assert group in groups ==> GroupOk(tickets, group, groups[group]);
  }

  lemma NotIssued(groups: map<Group, ReleaseState>, tickets: seq<Order>, closed: set<Ticket>)
    requires Consistent(groups, tickets, closed)
    ensures |tickets| !in closed
  {
  }

  /** The groups with something to send, and the sequence to send. */
  function Dirty(groups: map<Group, ReleaseState>): map<Group, int> {
    map g | g in groups && groups[g].latest > groups[g].acked :: groups[g].latest
  }

  /** Sequences only go up. */
  ghost predicate Grown(before: map<Group, ReleaseState>, after: map<Group, ReleaseState>) {
    forall g :: g in before ==> g in after && before[g].latest <= after[g].latest && before[g].acked <= after[g].acked
  }

  class Flusher {
    var groups: map<Group, ReleaseState>
    var issued: nat
    ghost var tickets: seq<Order>
    ghost var closed: set<Ticket>
    ghost var frames: seq<Frame>
    ghost var accepted: set<Frame>

    ghost predicate Valid()
      reads this
    {
      issued == |tickets| && Consistent(groups, tickets, closed) && FramesOk(groups, frames, accepted)
    }

    /** Nothing that was issued, closed, sent or acknowledged is ever taken back. */
    twostate predicate Progress()
      reads this
    {
      && Grown(old(groups), groups)
      && old(tickets) <= tickets && old(closed) <= closed && old(frames) <= frames && old(accepted) <= accepted
    }

    constructor ()
      ensures Valid() && groups == map[] && tickets == [] && frames == []
    {
      groups, issued := map[], 0;
      tickets, closed, frames, accepted := [], {}, [], {};
    }

    /** Closing a channel twice would panic. */
    method CloseTicket(t: Ticket)
      requires t !in closed
      modifies this`closed
      ensures closed == old(closed) + {t}
    {
      closed := closed + {t};
    }

    method MarkDirty(group: Group, sequence: int) returns (ticket: Option<Ticket>)
      requires Valid()
      modifies this`groups, this`issued, this`tickets, this`closed
      ensures Valid() && Progress()
      ensures ticket.None? <==> sequence <= 0 || group.credential == "" || group.model == ""
      ensures ticket.None? ==> groups == old(groups) && tickets == old(tickets) && closed == old(closed)
      ensures ticket.Some? ==>
        && ticket == Some(old(|tickets|)) && tickets == old(tickets) + [Order(group, sequence)]
        && (ticket.value in closed <==> sequence <= old(StateOf(groups, group)).acked)
        && sequence <= groups[group].latest
    {
      hide Consistent, FramesOk;
      if sequence <= 0 || group.credential == "" || group.model == "" {
        return None;
      }
      var t := issued;
      var st := StateOf(groups, group);
      if sequence <= st.acked {
        MarkDoneKeeps(groups, tickets, closed, Order(group, sequence));
        StateBounds(groups, tickets, closed, group);
        NotIssued(groups, tickets, closed);
        CloseTicket(t);
      } else {
        MarkKeeps(groups, tickets, closed, Order(group, sequence));
        NotIssued(groups, tickets, closed);
        FramesRaised(groups, frames, accepted, group, Marked(st, sequence, t));
        groups := groups[group := Marked(st, sequence, t)];
      }
      issued := issued + 1;
      tickets := tickets + [Order(group, sequence)];
      return Some(t);
    }

    /** Closes the tickets of one list, each once. */
    method CloseList(list: seq<Ticket>)
      requires NoDuplicates(list) && forall t :: t in list ==> t !in closed
      modifies this`closed
      ensures forall t :: t in closed <==> t in old(closed) || t in list
    {
      for i := 0 to |list|
        invariant forall t :: t in closed <==> t in old(closed) || t in list[..i]
      {
        assert list[i] !in list[..i];
        assert list[i] in list;
        CloseTicket(list[i]);
        assert list[..i + 1] == list[..i] + [list[i]];
      }
      assert list[..|list|] == list;
    }

    /** Home has accepted a sequence: records it and completes every ticket that it reaches. */
    method Acknowledge(group: Group, sequence: int)
      requires Valid() && group in groups && sequence <= groups[group].latest && Frame(group, sequence) in accepted
      modifies this`groups, this`closed
      ensures Valid() && Progress()
      ensures groups[group].acked >= sequence
      ensures forall g :: g in groups <==> g in old(groups)
      ensures forall g :: g in groups ==> groups[g].latest == old(groups)[g].latest
    {
      hide Consistent, FramesOk;
      var st := groups[group];
      if sequence > st.acked {
        FramesRaised(groups, frames, accepted, group, Acknowledged(st, sequence));
        var closing := CloseReached(group, st, sequence);
        AckKeeps(groups, tickets, old(closed), group, sequence, closing);
        groups := groups[group := Acknowledged(st, sequence)];
      }
    }

    method CloseReached(group: Group, st: ReleaseState, sequence: int) returns (ghost closing: set<Ticket>)
      requires Consistent(groups, tickets, closed) && group in groups && st == groups[group]
      modifies this`closed
      ensures closed == old(closed) + closing && IsClosing(st.waiters, sequence, closing)
    {
      hide Consistent, ClosedOutside, IsClosing, NoDuplicates;
      closing := {};
      var todo := st.waiters.Keys;
      NoneClosed(st.waiters, sequence);
      while todo != {}
        invariant todo <= st.waiters.Keys && closed == old(closed) + closing
        invariant ClosedOutside(st.waiters, sequence, todo, closing)
        decreases |todo|
      {
        var s := AnyOf(todo);
        ListClosed(st.waiters, sequence, todo, closing, s);
        if s <= sequence {
          NotYetClosed(groups, tickets, old(closed), group, sequence, todo, closing, s);
          CloseList(st.waiters[s]);
          closing := closing + Elements(st.waiters[s]);
        }
        todo := todo - {s};
      }
      AllClosed(st.waiters, sequence, closing);
    }

    /** Calls to MarkDirty by others. */
    method Interfere(marks: seq<Order>)
      requires Valid()
      modifies this`groups, this`issued, this`tickets, this`closed
      ensures Valid() && Progress()
    {
      hide Consistent, FramesOk;
      for i := 0 to |marks|
        invariant Valid() && Progress()
      {
        var _ := MarkDirty(marks[i].group, marks[i].sequence);
      }
    }

    method Send(group: Group, sequence: int, ok: bool)
      requires Valid() && group in groups && sequence <= groups[group].latest
      requires forall i :: 0 <= i < |frames| && frames[i].group == group ==> frames[i].sequence <= sequence
      modifies this`frames, this`accepted
      ensures Valid() && Progress()
      ensures frames == old(frames) + [Frame(group, sequence)]
      ensures accepted == old(accepted) + if ok then {Frame(group, sequence)} else {}
    {
      hide Consistent;
      frames := frames + [Frame(group, sequence)];
      if ok {
        accepted := accepted + {Frame(group, sequence)};
      }
    }

    /**
     One flush, with others marking groups dirty whenever the lock is free. If no send fails, every ticket issued
     before the flush began is closed when it ends.
     */
    method Flush(hasSender: bool, rounds: nat -> Round) returns (failed: bool)
      requires Valid()
      modifies this
      ensures Valid() && Progress()
      ensures hasSender ==>
        && |frames| == |old(frames)| + |Dirty(old(groups))|
        && forall g :: g in Dirty(old(groups)) ==> Frame(g, old(groups)[g].latest) in frames[|old(frames)|..]
      ensures failed <==> hasSender && exists n :: 0 <= n < |Dirty(old(groups))| && !rounds(n).ok
      ensures hasSender && !failed ==> forall t :: 0 <= t < old(|tickets|) ==> t in closed
      ensures !hasSender ==> !failed && groups == old(groups) && frames == old(frames) && closed == old(closed)
    {
      hide Consistent, FramesOk, Dirty, OnTrack, SentBut;
      var pending := Dirty(groups);
      if !hasSender {
        return false;
      }
      failed := false;
      var todo := pending.Keys;
      StartOnTrack(groups, frames, accepted);
      SentNone(frames, pending);
      var n := 0;
      while todo != {}
        invariant Valid() && Progress()
        invariant OnTrack(pending, todo, groups, frames, failed)
        invariant SentBut(frames, |old(frames)|, pending, todo)
        invariant n + |todo| == |pending| && (failed <==> exists m :: 0 <= m < n && !rounds(m).ok)
        decreases |todo|
      {
        var group := AnyOf(todo);
        NextToSend(pending, todo, groups, frames, failed, group);
        ghost var was := groups;
        ghost var sent := frames;
        var ok := SendOne(group, pending[group], rounds(n));
        SentOneMore(sent, frames, |old(frames)|, pending, todo, group);
        StayOnTrack(pending, todo, was, groups, frames, failed, group, ok);
        failed := failed || !ok;
        todo := todo - {group};
        n := n + 1;
      }
      TrackEnds(pending, groups, frames, failed);
      SentAll(frames, |old(frames)|, old(groups));
      if !failed {
        PendingClosed(old(groups), old(tickets), old(closed), groups, tickets, closed, pending);
      }
    }

    method SendOne(group: Group, sequence: int, round: Round) returns (ok: bool)
      requires Valid() && group in groups && sequence <= groups[group].latest
      requires forall i :: 0 <= i < |frames| && frames[i].group == group ==> frames[i].sequence <= sequence
      modifies this
      ensures Valid() && Progress()
      ensures frames == old(frames) + [Frame(group, sequence)]
      ensures ok == round.ok && (ok ==> groups[group].acked >= sequence)
    {
      hide Consistent, FramesOk;
      ok := round.ok;
      Interfere(round.before);
      Send(group, sequence, ok);
      Interfere(round.after);
      if ok {
        Acknowledge(group, sequence);
      }
    }

    /** Idle means that nothing is left to send and no ticket is open. */
    method Idle() returns (r: bool)
      requires Valid()
      ensures r <==> forall g :: g in groups ==> groups[g].latest <= groups[g].acked
      ensures r ==> forall t :: 0 <= t < |tickets| ==> t in closed
    {
      hide Consistent, FramesOk;
      var todo := groups.Keys;
      while todo != {}
        invariant todo <= groups.Keys
        invariant forall g :: g in groups && g !in todo ==> groups[g].latest <= groups[g].acked
        decreases |todo|
      {
        var g := AnyOf(todo);
        if groups[g].latest > groups[g].acked {
          return false;
        }
        todo := todo - {g};
      }
      forall t | 0 <= t < |tickets| ensures t in closed {
        OpenTicket(groups, tickets, closed, t);
      }
      return true;
    }

    /** A closed ticket was closed for a reason: a frame with at least its sequence was sent and accepted. */
    lemma ClosedWasAccepted(t: Ticket)
      requires Valid() && t in closed
      ensures t < |tickets| && AcceptedFor(tickets[t], frames, accepted)
    {
      var order := tickets[t];
      assert TicketOk(groups, order, t, true);
      assert Frame(order.group, groups[order.group].acked) in accepted;
    }

    method Perform(work: Work)
      requires Valid()
      modifies this
      ensures Valid() && Progress()
    {
      hide Consistent, FramesOk;
      match work {
        case Mark(order) => var _ := MarkDirty(order.group, order.sequence);
        case FlushAll(hasSender, rounds) => var _ := Flush(hasSender, rounds);
      }
    }

    /**
     Over every run: the frames of one group never decrease; a closed ticket had a frame of at least its sequence sent
     and accepted; and an open one waits for a sequence above what is acknowledged and not above the latest.
     */
    method Drive(works: seq<Work>)
      requires Valid()
      modifies this
      ensures Valid() && Progress()
      ensures forall i, j :: 0 <= i < j < |frames| && frames[i].group == frames[j].group ==>
        frames[i].sequence <= frames[j].sequence
      ensures forall t :: t in closed ==> t < |tickets| && AcceptedFor(tickets[t], frames, accepted)
      ensures forall t :: 0 <= t < |tickets| && t !in closed ==>
        && tickets[t].group in groups
        && groups[tickets[t].group].acked < tickets[t].sequence <= groups[tickets[t].group].latest
    {
      for i := 0 to |works|
        invariant Valid() && Progress()
      {
        hide Consistent, FramesOk;
        Perform(works[i]);
      }
      forall t | t in closed ensures t < |tickets| && AcceptedFor(tickets[t], frames, accepted) {
        ClosedWasAccepted(t);
      }
      forall t | 0 <= t < |tickets| && t !in closed ensures
        && tickets[t].group in groups
        && groups[tickets[t].group].acked < tickets[t].sequence <= groups[tickets[t].group].latest
      {
        OpenTicket(groups, tickets, closed, t);
      }
    }
  }

  /** A frame that reaches what a ticket waits for was sent and accepted. */
  ghost predicate AcceptedFor(order: Order, frames: seq<Frame>, accepted: set<Frame>) {
    exists f :: f in accepted && f in frames && f.group == order.group && f.sequence >= order.sequence
  }

  /** A flush under way: nothing sent yet for `todo` exceeds what is to be sent, and the rest has been acknowledged. */
  ghost predicate OnTrack(pending: map<Group, int>, todo: set<Group>, groups: map<Group, ReleaseState>,
                          frames: seq<Frame>, failed: bool) {
    && todo <= pending.Keys <= groups.Keys
    && (forall g :: g in pending ==> pending[g] <= groups[g].latest)
    && (forall i :: 0 <= i < |frames| && frames[i].group in todo ==> frames[i].sequence <= pending[frames[i].group])
    && (!failed ==> forall g :: g in pending && g !in todo ==> groups[g].acked >= pending[g])
  }

  lemma StartOnTrack(groups: map<Group, ReleaseState>, frames: seq<Frame>, accepted: set<Frame>)
    requires FramesOk(groups, frames, accepted)
    ensures OnTrack(Dirty(groups), Dirty(groups).Keys, groups, frames, false)
  {
  }

  lemma NextToSend(pending: map<Group, int>, todo: set<Group>, groups: map<Group, ReleaseState>, frames: seq<Frame>,
                   failed: bool, group: Group)
    requires OnTrack(pending, todo, groups, frames, failed) && group in todo
    ensures group in pending && group in groups && pending[group] <= groups[group].latest
    ensures forall i :: 0 <= i < |frames| && frames[i].group == group ==> frames[i].sequence <= pending[group]
  {
  }

  lemma StayOnTrack(pending: map<Group, int>, todo: set<Group>, groups: map<Group, ReleaseState>,
                    groups': map<Group, ReleaseState>, frames': seq<Frame>, failed: bool, group: Group, ok: bool)
    requires frames' != [] && frames'[|frames'| - 1].group == group
    requires OnTrack(pending, todo, groups, frames'[..|frames'| - 1], failed) && Grown(groups, groups') && group in todo
    requires ok ==> group in groups' && group in pending && groups'[group].acked >= pending[group]
    ensures OnTrack(pending, todo - {group}, groups', frames', failed || !ok)
  {
    var frames := frames'[..|frames'| - 1];
    assert forall i :: 0 <= i < |frames| ==> frames'[i] == frames[i];
  }

  /** From a given place on, one frame was sent for each pending group that is not left to do. */
  ghost predicate SentBut(frames: seq<Frame>, from: nat, pending: map<Group, int>, todo: set<Group>) {
    && from <= |frames| && |frames| + |todo| == from + |pending|
    && forall g :: g in pending && g !in todo ==> Frame(g, pending[g]) in frames[from..]
  }

  lemma SentNone(frames: seq<Frame>, pending: map<Group, int>)
    ensures SentBut(frames, |frames|, pending, pending.Keys)
  {
  }

  lemma SentOneMore(frames: seq<Frame>, frames': seq<Frame>, from: nat, pending: map<Group, int>, todo: set<Group>,
                    group: Group)
    requires SentBut(frames, from, pending, todo) && group in todo && group in pending
    requires frames' == frames + [Frame(group, pending[group])]
    ensures SentBut(frames', from, pending, todo - {group})
  {
    assert frames'[from..] == frames[from..] + [Frame(group, pending[group])];
  }

  lemma SentAll(frames: seq<Frame>, from: nat, groups: map<Group, ReleaseState>)
    requires SentBut(frames, from, Dirty(groups), {})
    ensures |frames| == from + |Dirty(groups)|
    ensures forall g :: g in Dirty(groups) ==> g in groups && Frame(g, groups[g].latest) in frames[from..]
  {
  }

  lemma TrackEnds(pending: map<Group, int>, groups: map<Group, ReleaseState>, frames: seq<Frame>, failed: bool)
    requires OnTrack(pending, {}, groups, frames, failed)
    ensures pending.Keys <= groups.Keys
    ensures !failed ==> forall g :: g in pending ==> groups[g].acked >= pending[g]
  {
  }

  /** An open ticket waits for a sequence between what is acknowledged and the latest. */
  lemma OpenTicket(groups: map<Group, ReleaseState>, tickets: seq<Order>, closed: set<Ticket>, t: Ticket)
    requires Consistent(groups, tickets, closed) && t < |tickets|
    ensures tickets[t].group in groups
    ensures var st := groups[tickets[t].group];
      if t in closed then tickets[t].sequence <= st.acked else st.acked < tickets[t].sequence <= st.latest
  {
    assert TicketOk(groups, tickets[t], t, t in closed);
    assert GroupOk(tickets, tickets[t].group, groups[tickets[t].group]);
  }

  lemma PendingClosed(groups: map<Group, ReleaseState>, tickets: seq<Order>, closed: set<Ticket>,
                      groups': map<Group, ReleaseState>, tickets': seq<Order>, closed': set<Ticket>,
                      pending: map<Group, int>)
    requires Consistent(groups, tickets, closed) && Consistent(groups', tickets', closed')
    requires pending == Dirty(groups) && tickets <= tickets' && closed <= closed' && pending.Keys <= groups'.Keys
    requires forall g :: g in pending ==> groups'[g].acked >= pending[g]
    ensures forall t :: 0 <= t < |tickets| ==> t in closed'
  {
    hide Consistent;
    forall t | 0 <= t < |tickets| ensures t in closed' {
      OpenTicket(groups, tickets, closed, t);
      OpenTicket(groups', tickets', closed', t);
    }
  }

  function Elements(list: seq<Ticket>): (r: set<Ticket>)
    ensures forall t :: t in r <==> t in list
  {
    set t | t in list
  }

  lemma NoneClosed(waiters: map<int, seq<Ticket>>, sequence: int)
    ensures ClosedOutside(waiters, sequence, waiters.Keys, {})
  {
  }

  lemma AllClosed(waiters: map<int, seq<Ticket>>, sequence: int, closing: set<Ticket>)
    requires ClosedOutside(waiters, sequence, {}, closing)
    ensures IsClosing(waiters, sequence, closing)
  {
    forall t | t in closing ensures exists s :: s in waiters && s <= sequence && t in waiters[s] {
      var s :| s in waiters && s !in {} && s <= sequence && t in waiters[s];
    }
  }

  lemma ListClosed(waiters: map<int, seq<Ticket>>, sequence: int, todo: set<int>, closing: set<Ticket>, s: int)
    requires ClosedOutside(waiters, sequence, todo, closing) && s in todo && s in waiters
    ensures var after := if s <= sequence then closing + Elements(waiters[s]) else closing;
      ClosedOutside(waiters, sequence, todo - {s}, after)
  {
    var after := if s <= sequence then closing + Elements(waiters[s]) else closing;
    forall t | t in after ensures exists o :: o in waiters && o !in todo - {s} && o <= sequence && t in waiters[o] {
      if t in closing {
        var o :| o in waiters && o !in todo && o <= sequence && t in waiters[o];
        assert o !in todo - {s};
      }
    }
  }

  /** Maps are traversed in no particular order. */
  method AnyOf<T(==)>(todo: set<T>) returns (s: T)
    requires todo != {}
    ensures s in todo
  {
    s :| s in todo;
  }

  /** The tickets of the lists dealt with so far. */
  ghost predicate ClosedOutside(waiters: map<int, seq<Ticket>>, sequence: int, todo: set<int>, closing: set<Ticket>) {
    && (forall s, t :: s in waiters && s !in todo && s <= sequence && t in waiters[s] ==> t in closing)
    && (forall t :: t in closing ==> exists s :: s in waiters && s !in todo && s <= sequence && t in waiters[s])
  }

  lemma NotYetClosed(groups: map<Group, ReleaseState>, tickets: seq<Order>, closed: set<Ticket>, group: Group,
                     sequence: int, todo: set<int>, closing: set<Ticket>, s: int)
    requires Consistent(groups, tickets, closed) && group in groups && s in groups[group].waiters && s in todo
    requires ClosedOutside(groups[group].waiters, sequence, todo, closing)
    ensures NoDuplicates(groups[group].waiters[s])
    ensures forall t :: t in groups[group].waiters[s] ==> t !in closed && t !in closing
  {
    var st := groups[group];
    assert GroupOk(tickets, group, st) && ListOk(tickets, group, s, st.waiters[s]);
    forall t | t in closing ensures t < |tickets| && tickets[t].sequence !in todo {
      var other :| other in st.waiters && other !in todo && other <= sequence && t in st.waiters[other];
      assert ListOk(tickets, group, other, st.waiters[other]);
    }
    forall t | t in st.waiters[s] ensures t !in closed {
      assert TicketOk(groups, tickets[t], t, t in closed);
    }
  }
}
