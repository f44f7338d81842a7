// Who gets in: the outcome of entering and of polling, told from the calls alone.
module CudaEntry {
  import opened CudaAdmission
  import opened CudaRuns
  import opened CudaFairness

  /** The calls that wait in either lane and have not been cancelled. */
  function Waiting(s: System): set<nat> {
    set id | id in s.calls && WaitsUncancelled(s, id)
  }

  /** Someone holds the lane's permit or waits for it. */
  ghost predicate LaneIsTaken(s: System, lane: Workload) {
    || (exists id :: Holds(s, id, lane))
    || (exists id :: id in Waiting(s) && s.calls[id].request.workload == lane)
  }

  // ---- The queue, seen from the calls ----

  ghost predicate Owners(s: System, ws: seq<Waiter>) {
    forall w | w in ws :: OwnedWaiter(s, w)
  }

  ghost function OwnerOf(s: System, w: Waiter): nat {
    if w.sequence < |s.arrivals| then s.arrivals[w.sequence] else 0
  }

  ghost function OwnersOf(s: System, ws: seq<Waiter>): set<nat> {
    set w | w in ws :: OwnerOf(s, w)
  }

  lemma FirstOwnerIsNew(s: System, ws: seq<Waiter>)
    requires ws != [] && Owners(s, ws) && Sorted(ws)
    ensures Owners(s, ws[1..]) && Sorted(ws[1..])
    ensures OwnerOf(s, ws[0]) !in OwnersOf(s, ws[1..])
    ensures OwnersOf(s, ws) == OwnersOf(s, ws[1..]) + {OwnerOf(s, ws[0])}
  {
    var rest := ws[1..];
    assert ws == [ws[0]] + rest;
    hide OwnedWaiter, OwnerOf;
    forall w | w in rest
      ensures OwnerOf(s, w) != OwnerOf(s, ws[0])
    {
      var k :| 0 <= k < |rest| && rest[k] == w;
      assert ws[0].sequence < ws[k + 1].sequence;
      OwnersDiffer(s, ws[0], w);
    }
  }

  lemma {:induction false} OneOwnerEach(s: System, ws: seq<Waiter>)
    requires Owners(s, ws) && Sorted(ws)
    ensures |OwnersOf(s, ws)| == |ws|
  {
    if ws == [] {
      assert OwnersOf(s, ws) == {};
    } else {
      hide OwnersOf, Owners, Sorted, OwnerOf;
      FirstOwnerIsNew(s, ws);
      OneOwnerEach(s, ws[1..]);
    }
  }

  lemma OwnersDiffer(s: System, v: Waiter, w: Waiter)
    requires OwnedWaiter(s, v) && OwnedWaiter(s, w) && v.sequence != w.sequence
    ensures OwnerOf(s, v) != OwnerOf(s, w)
  {
  }

  /** The live queue is the waiting calls: as many, and one for each. */
  lemma QueueIsTheWaitingCalls(s: System)
    requires Owned(s)
    ensures |WithoutCancelled(s.lanes.waiters, s.flags)| == |Waiting(s)|
    ensures forall w | w in WithoutCancelled(s.lanes.waiters, s.flags) ::
              OwnerOf(s, w) in Waiting(s) && s.calls[OwnerOf(s, w)].Ticket() == w
    ensures forall id | id in Waiting(s) :: s.calls[id].Ticket() in WithoutCancelled(s.lanes.waiters, s.flags)
  {
    var live := WithoutCancelled(s.lanes.waiters, s.flags);
    SortedWithoutCancelled(s.lanes.waiters, s.flags);
    forall w | w in live
      ensures OwnerOf(s, w) in Waiting(s) && s.calls[OwnerOf(s, w)].Ticket() == w
    {
      assert OwnedWaiter(s, w);
      assert OwningCall(s, OwnerOf(s, w));
    }
    forall id | id in Waiting(s)
      ensures s.calls[id].Ticket() in live && OwnerOf(s, s.calls[id].Ticket()) == id
    {
      assert OwningCall(s, id);
    }
    OneOwnerEach(s, live);
    assert OwnersOf(s, live) == Waiting(s);
  }

  lemma LaneTakenExactly(s: System, lane: Workload)
    requires Owned(s) && Exclusive(s)
    ensures LaneIsTaken(s, lane) <==>
              s.lanes.IsActive(lane) || LaneQueued(WithoutCancelled(s.lanes.waiters, s.flags), lane)
  {
    var live := WithoutCancelled(s.lanes.waiters, s.flags);
    QueueIsTheWaitingCalls(s);
    hide Owned, WithoutCancelled;
    if LaneQueued(live, lane) {
      var w :| w in live && w.request.workload == lane;
      assert OwnerOf(s, w) in Waiting(s);
    }
    if id :| id in Waiting(s) && s.calls[id].request.workload == lane {
      assert s.calls[id].Ticket() in live;
    }
  }

  /** A request is admitted at once exactly when nobody holds its lane or waits
      for it uncancelled, refused exactly when its lane is taken and the calls
      waiting in both lanes fill the capacity, and queued last otherwise. */
  lemma EnterExactly(s: System, id: nat)
    requires Owned(s) && Exclusive(s) && id in s.calls && s.calls[id].phase.Checked?
    ensures var t, lane := Apply(s, Enter(id)), s.calls[id].request.workload;
            && t.calls.Keys == s.calls.Keys && t.calls[id].request == s.calls[id].request && t.flags == s.flags
            && (forall other | other in s.calls && other != id :: t.calls[other] == s.calls[other])
            && (t.calls[id].phase.Holding? <==> !LaneIsTaken(s, lane))
            && (t.calls[id].phase.Ended? <==> LaneIsTaken(s, lane) && |Waiting(s)| >= s.capacity)
            && (t.calls[id].phase.Waiting? <==> LaneIsTaken(s, lane) && |Waiting(s)| < s.capacity)
            && (t.calls[id].phase.Waiting? ==>
                  && t.calls[id].phase.sequence == |s.arrivals| % SEQUENCES
                  && t.lanes.waiters == WithoutCancelled(s.lanes.waiters, s.flags) + [t.calls[id].Ticket()])
  {
    LaneTakenExactly(s, s.calls[id].request.workload);
    QueueIsTheWaitingCalls(s);
    assert s.lanes.nextSequence == |s.arrivals| % SEQUENCES;
    hide Owned, Exclusive, LaneIsTaken, Waiting, WithoutCancelled, LaneQueued;
  }

  /** Admission does not look at the other lane: two states in which the calls
      for the lane are the same admit the same requests to it. */
  lemma OtherLanePlaysNoPart(s: System, t: System, id: nat)
    requires Owned(s) && Exclusive(s) && Owned(t) && Exclusive(t)
    requires id in s.calls && id in t.calls && s.calls[id] == t.calls[id] && s.calls[id].phase.Checked?
    requires var lane := s.calls[id].request.workload;
             && (forall other | other in s.calls && s.calls[other].request.workload == lane ::
                   other in t.calls && t.calls[other] == s.calls[other])
             && (forall other | other in t.calls && t.calls[other].request.workload == lane ::
                   other in s.calls && s.calls[other] == t.calls[other])
    requires s.flags == t.flags
    ensures Admits(s, Enter(id), id) <==> Admits(t, Enter(id), id)
  {
    EnterExactly(s, id);
    EnterExactly(t, id);
    hide Owned, Exclusive, Apply;
    var lane := s.calls[id].request.workload;
    SameCallsTakeLane(s, t, lane);
    SameCallsTakeLane(t, s, lane);
  }

  lemma SameCallsTakeLane(s: System, t: System, lane: Workload)
    requires s.flags == t.flags
    requires forall other | other in s.calls && s.calls[other].request.workload == lane ::
               other in t.calls && t.calls[other] == s.calls[other]
    ensures LaneIsTaken(s, lane) ==> LaneIsTaken(t, lane)
  {
    if id :| Holds(s, id, lane) {
      assert Holds(t, id, lane);
    }
    if id :| id in Waiting(s) && s.calls[id].request.workload == lane {
      assert id in Waiting(t);
    }
  }

  /** No waiting call of the same lane goes before this one. */
  ghost predicate IsNext(s: System, id: nat)
    requires id in Waiting(s)
  {
    forall other | other in Waiting(s) && s.calls[other].request.workload == s.calls[id].request.workload ::
      other == id || Outranks(s.calls[id].Ticket(), s.calls[other].Ticket())
  }

  lemma NextIsSelected(s: System, id: nat)
    requires Owned(s) && id in Waiting(s)
    ensures var lane, live := s.calls[id].request.workload, WithoutCancelled(s.lanes.waiters, s.flags);
            && NextWaiter(live, lane).Some?
            && (NextWaiter(live, lane).value.sequence == s.calls[id].phase.sequence <==> IsNext(s, id))
  {
    var lane, live := s.calls[id].request.workload, WithoutCancelled(s.lanes.waiters, s.flags);
    var ticket := s.calls[id].Ticket();
    QueueIsTheWaitingCalls(s);
    NextWaiterIsGreatest(live, lane);
    assert ticket in live;
    var next := NextWaiter(live, lane).value;
    var owner := OwnerOf(s, next);
    assert OwnedWaiter(s, next) && OwningCall(s, id);
    if next.sequence == ticket.sequence {
      assert owner == id;
      forall other | other in Waiting(s) && s.calls[other].request.workload == lane
        ensures other == id || Outranks(ticket, s.calls[other].Ticket())
      {
        assert s.calls[other].Ticket() in live && OwningCall(s, other);
      }
    }
    if IsNext(s, id) {
      assert owner in Waiting(s);
    }
  }

  lemma PollEffect(s: System, id: nat)
    requires id in s.calls && s.calls[id].phase.Waiting?
    ensures var t, call := Apply(s, Poll(id)), s.calls[id];
            var outcome := PollLane(s.lanes, call.request.workload, call.phase.sequence, s.flags).1;
            && t.calls.Keys == s.calls.Keys && t.calls[id].request == call.request && t.flags == s.flags
            && (forall other | other in s.calls && other != id :: t.calls[other] == s.calls[other])
            && (t.calls[id].phase.Leaving? <==> outcome.Cancelled?)
            && (t.calls[id].phase.Holding? <==> outcome.Granted?)
            && (t.calls[id].phase.Waiting? ==> t.calls[id] == call)
  {
    hide PollLane;
  }

  lemma PollOutcomeExactly(s: System, id: nat)
    requires Owned(s) && id in s.calls && s.calls[id].phase.Waiting?
    ensures var call := s.calls[id];
            var outcome := PollLane(s.lanes, call.request.workload, call.phase.sequence, s.flags).1;
            && (outcome.Cancelled? <==> id !in Waiting(s))
            && (outcome.Granted? <==> id in Waiting(s) && IsNext(s, id) && !s.lanes.IsActive(call.request.workload))
  {
    var live := WithoutCancelled(s.lanes.waiters, s.flags);
    if id in Waiting(s) {
      NextIsSelected(s, id);
      QueueIsTheWaitingCalls(s);
      assert SequenceQueued(live, s.calls[id].phase.sequence);
    } else {
      NotQueuedWhenCancelled(s, id);
    }
    hide Owned, WithoutCancelled, NextWaiter, IsNext, SequenceQueued, WithoutSequence, Waiting;
  }

  /** A waiting call that polls leaves when it was cancelled, is granted its lane
      exactly when nobody holds the lane and nobody outranks it there, and goes on
      waiting otherwise. */
  lemma PollExactly(s: System, id: nat)
    requires Owned(s) && Exclusive(s) && id in s.calls && s.calls[id].phase.Waiting?
    ensures var t, lane := Apply(s, Poll(id)), s.calls[id].request.workload;
            && t.calls.Keys == s.calls.Keys && t.calls[id].request == s.calls[id].request && t.flags == s.flags
            && (forall other | other in s.calls && other != id :: t.calls[other] == s.calls[other])
            && (t.calls[id].phase.Leaving? <==> id !in Waiting(s))
            && (t.calls[id].phase.Holding? <==>
                  id in Waiting(s) && IsNext(s, id) && forall other :: !Holds(s, other, lane))
            && (t.calls[id].phase.Waiting? ==> t.calls[id] == s.calls[id])
  {
    hide Apply, PollLane, Owned, IsNext, Waiting;
    PollEffect(s, id);
    PollOutcomeExactly(s, id);
  }

  lemma NotQueuedWhenCancelled(s: System, id: nat)
    requires Owned(s) && id in s.calls && s.calls[id].phase.Waiting? && id !in Waiting(s)
    ensures var live, lane := WithoutCancelled(s.lanes.waiters, s.flags), s.calls[id].request.workload;
            && !SequenceQueued(live, s.calls[id].phase.sequence)
            && (NextWaiter(live, lane).Some? ==> NextWaiter(live, lane).value.sequence != s.calls[id].phase.sequence)
  {
    var live := WithoutCancelled(s.lanes.waiters, s.flags);
    NextWaiterIsGreatest(live, s.calls[id].request.workload);
    assert OwningCall(s, id);
    forall w | w in live
      ensures w.sequence != s.calls[id].phase.sequence
    {
      assert OwnedWaiter(s, w);
    }
  }
}
