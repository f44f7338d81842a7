// Ownership of queued waiters, lane progress, and who may be admitted before
// whom, over whole runs in which the u64 sequence counter has not wrapped.
module CudaFairness {
  import opened CudaAdmission
  import opened CudaRuns

  ghost predicate Sorted(ws: seq<Waiter>) {
    forall i, j | 0 <= i < j < |ws| :: ws[i].sequence < ws[j].sequence
  }

  lemma {:induction false} SortedWithoutCancelled(ws: seq<Waiter>, flags: set<Flag>)
    requires Sorted(ws)
    ensures Sorted(WithoutCancelled(ws, flags))
  {
    if ws != [] {
      SortedWithoutCancelled(ws[1..], flags);
      forall w | w in WithoutCancelled(ws[1..], flags)
        ensures ws[0].sequence < w.sequence
      {
        assert w in ws[1..];
      }
    }
  }

  lemma {:induction false} SortedWithoutSequence(ws: seq<Waiter>, sequence: nat)
    requires Sorted(ws)
    ensures Sorted(WithoutSequence(ws, sequence))
  {
    if ws != [] {
      SortedWithoutSequence(ws[1..], sequence);
      forall w | w in WithoutSequence(ws[1..], sequence)
        ensures ws[0].sequence < w.sequence
      {
        assert w in ws[1..];
      }
    }
  }

  /** What max_by computes: a waiter of the lane no other one is greater than. */
  lemma {:induction false} NextWaiterIsGreatest(ws: seq<Waiter>, lane: Workload)
    ensures NextWaiter(ws, lane).Some? <==> LaneQueued(ws, lane)
    ensures NextWaiter(ws, lane).Some? ==>
              var w := NextWaiter(ws, lane).value;
              && w in ws && w.request.workload == lane
              && forall v | v in ws && v.request.workload == lane :: NotGreater(v, w)
    decreases |ws|
  {
    if ws != [] {
      var front := ws[..|ws| - 1];
      NextWaiterIsGreatest(front, lane);
      assert forall v :: v in ws <==> v in front || v == ws[|ws| - 1];
    }
  }

  // ---- Ownership ----

  ghost predicate OwnedWaiter(s: System, w: Waiter) {
    && w.sequence < |s.arrivals|
    && var id := s.arrivals[w.sequence];
    && id in s.calls && s.calls[id].Armed() && s.calls[id].Ticket() == w
  }

  ghost predicate OwningCall(s: System, id: nat)
    requires id in s.calls && s.calls[id].Armed()
  {
    var call := s.calls[id];
    && call.phase.sequence < |s.arrivals| && s.arrivals[call.phase.sequence] == id
    && ((call.phase.Waiting? && call.Ticket() in s.lanes.waiters) || call.request.cancel in s.flags)
  }

  /** Sequences are distinct and increase along the queue; every queued waiter
      is owned by one live armed call; an armed call that is missing from the
      queue, or on its way out, was cancelled. */
  ghost predicate Owned(s: System) {
    && |s.arrivals| <= SEQUENCES
    && s.lanes.nextSequence == |s.arrivals| % SEQUENCES
    && Sorted(s.lanes.waiters)
    && (forall w | w in s.lanes.waiters :: OwnedWaiter(s, w))
    && (forall id | id in s.calls && s.calls[id].Armed() :: OwningCall(s, id))
  }

  /** The system after a lock-held section has thrown out cancelled waiters. */
  function Pruned(s: System): System {
    s.(lanes := s.lanes.(waiters := WithoutCancelled(s.lanes.waiters, s.flags)))
  }

  lemma OwnedPruned(s: System)
    requires Owned(s)
    ensures Owned(Pruned(s))
  {
    SortedWithoutCancelled(s.lanes.waiters, s.flags);
    var t := Pruned(s);
    forall w | w in t.lanes.waiters
      ensures OwnedWaiter(t, w)
    {
      assert OwnedWaiter(s, w);
    }
    forall id | id in t.calls && t.calls[id].Armed()
      ensures OwningCall(t, id)
    {
      assert OwningCall(s, id);
    }
  }

  /** Lane flags play no part in ownership, nor do calls that are not armed. */
  lemma OwnedRelabelled(s: System, id: nat, phase: Phase, lane: Workload, active: bool)
    requires Owned(s) && id in s.calls && !s.calls[id].Armed()
    requires !phase.Waiting? && !phase.Leaving?
    ensures Owned(Move(s.(lanes := s.lanes.SetActive(lane, active)), id, phase))
    ensures Owned(Move(s, id, phase))
  {
    var t := Move(s.(lanes := s.lanes.SetActive(lane, active)), id, phase);
    var u := Move(s, id, phase);
    forall w | w in s.lanes.waiters
      ensures OwnedWaiter(t, w) && OwnedWaiter(u, w)
    {
      assert OwnedWaiter(s, w);
    }
    forall other | other in t.calls && t.calls[other].Armed()
      ensures OwningCall(t, other) && OwningCall(u, other)
    {
      assert OwningCall(s, other);
    }
  }

  /** A call gives up its place in the queue. */
  lemma OwnedWithdrawn(s: System, id: nat, phase: Phase, lane: Workload, active: bool)
    requires Owned(s) && id in s.calls && s.calls[id].Armed()
    requires !phase.Waiting? && !phase.Leaving?
    ensures var lanes := CancelWaiter(s.lanes, s.calls[id].phase.sequence);
            Owned(Move(s.(lanes := lanes), id, phase))
              && Owned(Move(s.(lanes := lanes.SetActive(lane, active)), id, phase))
  {
    var q := s.calls[id].phase.sequence;
    assert OwningCall(s, id);
    SortedWithoutSequence(s.lanes.waiters, q);
    var lanes := CancelWaiter(s.lanes, q);
    var t := Move(s.(lanes := lanes), id, phase);
    var u := Move(s.(lanes := lanes.SetActive(lane, active)), id, phase);
    forall w | w in lanes.waiters
      ensures OwnedWaiter(t, w) && OwnedWaiter(u, w)
    {
      assert OwnedWaiter(s, w);
    }
    forall other | other in t.calls && t.calls[other].Armed()
      ensures OwningCall(t, other) && OwningCall(u, other)
    {
      assert OwningCall(s, other);
    }
  }

  lemma OwnedCancelled(s: System, id: nat)
    requires Owned(s) && id in s.calls && s.calls[id].phase.Waiting? && s.calls[id].request.cancel in s.flags
    ensures Owned(Move(s, id, Leaving(s.calls[id].phase.sequence)))
  {
    var t := Move(s, id, Leaving(s.calls[id].phase.sequence));
    forall w | w in t.lanes.waiters
      ensures OwnedWaiter(t, w)
    {
      assert OwnedWaiter(s, w);
    }
    forall other | other in t.calls && t.calls[other].Armed()
      ensures OwningCall(t, other)
    {
      assert OwningCall(s, other);
    }
  }

  lemma OwnedQueued(s: System, id: nat)
    requires Owned(s) && id in s.calls && s.calls[id].phase.Checked? && |s.arrivals| < SEQUENCES
    ensures var q := s.lanes.nextSequence;
            Owned(Move(s.(lanes := s.lanes.(nextSequence := (q + 1) % SEQUENCES,
                                            waiters := s.lanes.waiters + [Waiter(q, s.calls[id].request)]),
                          arrivals := s.arrivals + [id]), id, Waiting(q)))
  {
    var q := s.lanes.nextSequence;
    assert q == |s.arrivals|;
    var newest := Waiter(q, s.calls[id].request);
    var t := Move(s.(lanes := s.lanes.(nextSequence := (q + 1) % SEQUENCES,
                                       waiters := s.lanes.waiters + [newest]),
                     arrivals := s.arrivals + [id]), id, Waiting(q));
    forall w | w in s.lanes.waiters
      ensures OwnedWaiter(t, w) && w.sequence < q
    {
      assert OwnedWaiter(s, w);
    }
    assert OwnedWaiter(t, newest);
    forall other | other in t.calls && t.calls[other].Armed()
      ensures OwningCall(t, other)
    {
      assert other == id || OwningCall(s, other);
    }
  }

  lemma OwnedEnter(s: System, id: nat)
    requires Owned(s) && id in s.calls && s.calls[id].phase.Checked?
    requires |ApplyEnter(s, id).arrivals| <= SEQUENCES
    ensures Owned(ApplyEnter(s, id))
  {
    OwnedPruned(s);
    hide Owned;
    var request := s.calls[id].request;
    match EnterLane(s.lanes, s.capacity, request, s.flags).1
    case Admitted => OwnedRelabelled(Pruned(s), id, Holding, request.workload, true);
    case QueueFull => OwnedRelabelled(Pruned(s), id, Ended, request.workload, true);
    case Queued(_) => OwnedQueued(Pruned(s), id);
  }

  lemma OwnedPoll(s: System, id: nat)
    requires Owned(s) && id in s.calls && s.calls[id].phase.Waiting?
    ensures Owned(ApplyPoll(s, id))
  {
    assert OwningCall(s, id);
    OwnedPruned(s);
    hide Owned;
    var call := s.calls[id];
    match PollLane(s.lanes, call.request.workload, call.phase.sequence, s.flags).1
    case Granted => OwnedWithdrawn(Pruned(s), id, Holding, call.request.workload, true);
    case Pending =>
    case Cancelled => OwnedCancelled(Pruned(s), id);
  }

  lemma OwnedDrop(s: System, id: nat)
    requires Owned(s) && id in s.calls
    ensures Owned(ApplyDrop(s, id))
  {
    var lane := s.calls[id].request.workload;
    if s.calls[id].Armed() {
      OwnedWithdrawn(s, id, Ended, lane, false);
    } else {
      OwnedRelabelled(s, id, Ended, lane, false);
      OwnedPruned(Move(s.(lanes := s.lanes.SetActive(lane, false)), id, Ended));
    }
  }

  lemma OwnedStep(s: System, step: Step)
    requires Owned(s) && |Apply(s, step).arrivals| <= SEQUENCES
    ensures Owned(Apply(s, step))
  {
    var t := Apply(s, step);
    if t != s {
      match step
      case Enter(id) => OwnedEnter(s, id);
      case Poll(id) => OwnedPoll(s, id);
      case Drop(id) => OwnedDrop(s, id);
      case _ =>
        forall w | w in t.lanes.waiters
          ensures OwnedWaiter(t, w)
        {
          assert OwnedWaiter(s, w);
        }
        forall id | id in t.calls && t.calls[id].Armed()
          ensures OwningCall(t, id)
        {
          assert OwningCall(s, id);
        }
    }
  }

  lemma {:induction false} ArrivalsOnlyGrow(s: System, steps: seq<Step>)
    ensures s.arrivals <= Run(s, steps).arrivals
    decreases |steps|
  {
    if steps != [] {
      ArrivalsOnlyGrow(Apply(s, steps[0]), steps[1..]);
    }
  }

  lemma {:induction false} AlwaysOwned(s: System, steps: seq<Step>)
    requires Owned(s) && |Run(s, steps).arrivals| <= SEQUENCES
    ensures Owned(Run(s, steps))
    decreases |steps|
  {
    if steps != [] {
      ArrivalsOnlyGrow(Apply(s, steps[0]), steps[1..]);
      OwnedStep(s, steps[0]);
      AlwaysOwned(Apply(s, steps[0]), steps[1..]);
    }
  }

  lemma EveryReachableStateIsOwned(capacity: nat, steps: seq<Step>)
    requires |Run(Initial(capacity), steps).arrivals| <= SEQUENCES
    ensures Owned(Run(Initial(capacity), steps))
  {
    AlwaysOwned(Initial(capacity), steps);
  }

  // ---- Lane progress ----

  predicate WaitsUncancelled(s: System, id: nat) {
    id in s.calls && s.calls[id].phase.Waiting? && s.calls[id].request.cancel !in s.flags
  }

  predicate NextPollIsGranted(s: System, id: nat, lane: Workload) {
    && id in s.calls && s.calls[id].phase.Waiting? && s.calls[id].request.workload == lane
    && PollLane(s.lanes, lane, s.calls[id].phase.sequence, s.flags).1.Granted?
  }

  /** No owner can vanish and leave the lane blocked. */
  lemma IdleLaneHasExactlyOneNextPermit(s: System, waiter: Waiter)
    requires Owned(s) && !s.lanes.IsActive(waiter.request.workload)
    requires waiter in s.lanes.waiters && waiter.request.cancel !in s.flags
    ensures exists id ::
              && WaitsUncancelled(s, id)
              && NextPollIsGranted(s, id, waiter.request.workload)
              && forall other | NextPollIsGranted(s, other, waiter.request.workload) :: other == id
  {
    hide EnterLane, Apply, NotGreater, Sorted, WithoutSequence;
    var lane := waiter.request.workload;
    var live := WithoutCancelled(s.lanes.waiters, s.flags);
    NextWaiterIsGreatest(live, lane);
    assert waiter in live;
    var next := NextWaiter(live, lane).value;
    assert OwnedWaiter(s, next);
    var id := s.arrivals[next.sequence];
    assert OwningCall(s, id);
    assert NextPollIsGranted(s, id, lane);
    forall other | NextPollIsGranted(s, other, lane)
      ensures other == id
    {
      assert OwningCall(s, other);
    }
  }

  // ---- Admission order ----

  predicate Admits(s: System, step: Step, id: nat) {
    var t := Apply(s, step);
    id in t.calls && t.calls[id].phase.Holding? && !(id in s.calls && s.calls[id].phase.Holding?)
  }

  /** Visible before Offscreen; within one priority, earlier before later. */
  predicate Outranks(v: Waiter, w: Waiter) {
    || (v.request.priority.Visible? && w.request.priority.Offscreen?)
    || (v.request.priority == w.request.priority && v.sequence < w.sequence)
  }

  /** The lock-held sections alone: entering never overtakes a live waiter,
      and a granted poll belongs to a waiter no live one is greater than. */
  lemma LaneRules(lanes: Lanes, capacity: nat, request: Request, flags: set<Flag>, sequence: nat, waiter: Waiter)
    requires waiter in lanes.waiters && waiter.request.cancel !in flags
    requires waiter.request.workload == request.workload
    ensures !EnterLane(lanes, capacity, request, flags).1.Admitted?
    ensures PollLane(lanes, request.workload, sequence, flags).1.Granted? ==>
              exists next | next in lanes.waiters ::
                next.sequence == sequence && next.request.cancel !in flags && NotGreater(waiter, next)
  {
    var live := WithoutCancelled(lanes.waiters, flags);
    assert waiter in live;
    NextWaiterIsGreatest(live, request.workload);
  }

  lemma AdmittedBySomeStep(s: System, step: Step, id: nat)
    requires Admits(s, step, id)
    ensures id in s.calls && Apply(s, step).calls[id].request == s.calls[id].request
    ensures (step == Enter(id) && EnterLane(s.lanes, s.capacity, s.calls[id].request, s.flags).1.Admitted?)
            || (step == Poll(id) && s.calls[id].phase.Waiting?
                && PollLane(s.lanes, s.calls[id].request.workload, s.calls[id].phase.sequence, s.flags).1.Granted?)
  {
    hide EnterLane, PollLane, CancelWaiter, ReleaseLane;
  }

  /** While an uncancelled waiter is queued, nobody barges into its lane: an
      admission is a grant to a queued waiter, to itself or to one that outranks it. */
  lemma AdmissionsRespectTheQueue(s: System, step: Step, id: nat, waiter: Waiter)
    requires Owned(s) && Admits(s, step, id)
    requires waiter in s.lanes.waiters && waiter.request.cancel !in s.flags
    requires Apply(s, step).calls[id].request.workload == waiter.request.workload
    ensures step == Poll(id) && WaitsUncancelled(s, id) && s.calls[id].Ticket() in s.lanes.waiters
    ensures s.calls[id].Ticket() == waiter || Outranks(s.calls[id].Ticket(), waiter)
  {
    AdmittedBySomeStep(s, step, id);
    hide Apply;
    hide PollLane;
    hide EnterLane;
    var call := s.calls[id];
    var sequence := if call.phase.Waiting? then call.phase.sequence else 0;
    LaneRules(s.lanes, s.capacity, call.request, s.flags, sequence, waiter);
    var next :| next in s.lanes.waiters && next.sequence == call.phase.sequence
                && next.request.cancel !in s.flags && NotGreater(waiter, next);
    assert OwnedWaiter(s, next) && OwnedWaiter(s, waiter);
    assert OwningCall(s, id);
  }

  // ---- Whole runs ----

  /** A call that has stopped waiting never waits again. */
  predicate Past(s: System, id: nat) {
    id in s.calls && !s.calls[id].phase.Checked? && !s.calls[id].phase.Waiting?
  }

  lemma {:induction false} PastForever(s: System, steps: seq<Step>, id: nat)
    requires Past(s, id)
    ensures Past(Run(s, steps), id)
    decreases |steps|
  {
    if steps != [] {
      PastForever(Apply(s, steps[0]), steps[1..], id);
    }
  }

  lemma {:induction false} FlagsStayRaised(s: System, steps: seq<Step>)
    ensures s.flags <= Run(s, steps).flags
    decreases |steps|
  {
    if steps != [] {
      FlagsStayRaised(Apply(s, steps[0]), steps[1..]);
    }
  }

  /** One step of a call that is still waiting at the end of the run. */
  lemma WaitingStep(s: System, step: Step, rest: seq<Step>, a: nat)
    requires a in s.calls && s.calls[a].phase.Waiting?
    requires WaitsUncancelled(Run(Apply(s, step), rest), a)
    ensures WaitsUncancelled(s, a) && WaitsUncancelled(Apply(s, step), a)
    ensures Apply(s, step).calls[a] == s.calls[a]
  {
    var t := Apply(s, step);
    if Past(t, a) {
      PastForever(t, rest, a);
    }
    FlagsStayRaised(t, rest);
    RequestsAreFixed(t, rest, a);
    WaitingCallsKeepTheirTicket(s, step, a);
  }

  lemma WaitingCallsKeepTheirTicket(s: System, step: Step, a: nat)
    requires a in s.calls && s.calls[a].phase.Waiting?
    ensures Past(Apply(s, step), a) || (a in Apply(s, step).calls && Apply(s, step).calls[a] == s.calls[a])
    ensures s.flags <= Apply(s, step).flags
    ensures a in Apply(s, step).calls && Apply(s, step).calls[a].request == s.calls[a].request
  {
    hide EnterLane, PollLane, CancelWaiter, ReleaseLane;
  }

  /** For as long as `a` waits uncancelled, every admission in its lane goes
      to a queued waiter that outranks it. */
  lemma {:induction false} OnlyBetterTicketsPass(s: System, steps: seq<Step>, a: nat, k: nat, id: nat)
    requires Owned(s) && |Run(s, steps).arrivals| <= SEQUENCES
    requires a in s.calls && s.calls[a].phase.Waiting? && WaitsUncancelled(Run(s, steps), a)
    requires k < |steps| && Admits(Run(s, steps[..k]), steps[k], id)
    requires Apply(Run(s, steps[..k]), steps[k]).calls[id].request.workload == s.calls[a].request.workload
    ensures var sk := Run(s, steps[..k]);
            WaitsUncancelled(sk, id) && Outranks(sk.calls[id].Ticket(), s.calls[a].Ticket())
    decreases |steps|
  {
    WaitingStep(s, steps[0], steps[1..], a);
    assert OwningCall(s, a);
    if k == 0 {
      AdmissionsRespectTheQueue(s, steps[0], id, s.calls[a].Ticket());
      assert OwningCall(s, id);
    } else {
      assert steps[..k][1..] == steps[1..][..k - 1];
      ArrivalsOnlyGrow(Apply(s, steps[0]), steps[1..]);
      OwnedStep(s, steps[0]);
      OnlyBetterTicketsPass(Apply(s, steps[0]), steps[1..], a, k - 1, id);
    }
  }

  lemma {:induction false} TicketsAreFixed(s: System, steps: seq<Step>, b: nat)
    requires b in s.calls && s.calls[b].phase.Waiting?
    ensures b in Run(s, steps).calls && Run(s, steps).calls[b].request == s.calls[b].request
    ensures Past(Run(s, steps), b) || Run(s, steps).calls[b] == s.calls[b]
    decreases |steps|
  {
    if steps != [] {
      var t := Apply(s, steps[0]);
      WaitingCallsKeepTheirTicket(s, steps[0], b);
      if Past(t, b) {
        PastForever(t, steps[1..], b);
        RequestsAreFixed(t, steps[1..], b);
      } else {
        TicketsAreFixed(t, steps[1..], b);
      }
    }
  }

  lemma RequestIsFixed(s: System, step: Step, id: nat)
    requires id in s.calls
    ensures id in Apply(s, step).calls && Apply(s, step).calls[id].request == s.calls[id].request
  {
    hide EnterLane, PollLane, CancelWaiter, ReleaseLane;
  }

  lemma {:induction false} RequestsAreFixed(s: System, steps: seq<Step>, b: nat)
    requires b in s.calls
    ensures b in Run(s, steps).calls && Run(s, steps).calls[b].request == s.calls[b].request
    decreases |steps|
  {
    if steps != [] {
      hide Apply;
      RequestIsFixed(s, steps[0], b);
      RequestsAreFixed(Apply(s, steps[0]), steps[1..], b);
    }
  }

  /** Two waiters of one lane: the outranked one is not admitted while the
      other still waits uncancelled. With equal priorities this is admission
      in enqueue order; with different ones, Visible before Offscreen. */
  lemma NoOvertaking(s: System, steps: seq<Step>, a: nat, b: nat, k: nat)
    requires Owned(s) && |Run(s, steps).arrivals| <= SEQUENCES
    requires a in s.calls && s.calls[a].phase.Waiting? && WaitsUncancelled(Run(s, steps), a)
    requires b in s.calls && s.calls[b].phase.Waiting?
    requires s.calls[a].request.workload == s.calls[b].request.workload
    requires Outranks(s.calls[a].Ticket(), s.calls[b].Ticket())
    requires k < |steps|
    ensures !Admits(Run(s, steps[..k]), steps[k], b)
  {
    hide Apply, Run, EnterLane, PollLane, Owned;
    if Admits(Run(s, steps[..k]), steps[k], b) {
      TicketsAreFixed(s, steps[..k], b);
      AdmittedBySomeStep(Run(s, steps[..k]), steps[k], b);
      OnlyBetterTicketsPass(s, steps, a, k, b);
    }
  }

  // ---- Bounded wait of Visible waiters ----

  /** How many queued waiters outrank `ticket` in its lane. */
  function Ahead(ws: seq<Waiter>, ticket: Waiter): nat {
    if ws == [] then 0
    else
      Ahead(ws[1..], ticket)
      + if ws[0].request.workload == ticket.request.workload && Outranks(ws[0], ticket) then 1 else 0
  }

  lemma {:induction false} AheadOfConcat(ws: seq<Waiter>, more: seq<Waiter>, ticket: Waiter)
    ensures Ahead(ws + more, ticket) == Ahead(ws, ticket) + Ahead(more, ticket)
  {
    if ws == [] {
      assert ws + more == more;
    } else {
      assert (ws + more)[1..] == ws[1..] + more;
      AheadOfConcat(ws[1..], more, ticket);
    }
  }

  lemma {:induction false} FewerAhead(ws: seq<Waiter>, flags: set<Flag>, ticket: Waiter)
    ensures Ahead(WithoutCancelled(ws, flags), ticket) <= Ahead(ws, ticket)
  {
    if ws != [] {
      FewerAhead(ws[1..], flags, ticket);
      AheadOfConcat(if ws[0].request.cancel in flags then [] else [ws[0]], WithoutCancelled(ws[1..], flags), ticket);
    }
  }

  lemma {:induction false} OneFewerAhead(ws: seq<Waiter>, gone: nat, ticket: Waiter)
    ensures Ahead(WithoutSequence(ws, gone), ticket) <= Ahead(ws, ticket)
    ensures (exists w | w in ws ::
               w.sequence == gone && w.request.workload == ticket.request.workload && Outranks(w, ticket)) ==>
              Ahead(WithoutSequence(ws, gone), ticket) < Ahead(ws, ticket)
  {
    if ws != [] {
      OneFewerAhead(ws[1..], gone, ticket);
      AheadOfConcat(if ws[0].sequence == gone then [] else [ws[0]], WithoutSequence(ws[1..], gone), ticket);
      assert ws == [ws[0]] + ws[1..];
    }
  }

  lemma {:induction false} AheadAtMostOthers(ws: seq<Waiter>, ticket: Waiter)
    ensures Ahead(ws, ticket) <= |ws|
    ensures ticket in ws ==> Ahead(ws, ticket) < |ws|
  {
    if ws != [] {
      AheadAtMostOthers(ws[1..], ticket);
    }
  }

  function AdmissionsOf(s: System, step: Step, lane: Workload): nat {
    var t := Apply(s, step);
    if !s.lanes.IsActive(lane) && t.lanes.IsActive(lane) then 1 else 0
  }

  function LaneAdmissions(s: System, steps: seq<Step>, lane: Workload): nat
    decreases |steps|
  {
    if steps == [] then 0
    else AdmissionsOf(s, steps[0], lane) + LaneAdmissions(Apply(s, steps[0]), steps[1..], lane)
  }

  /** The counter counts exactly the permits handed out. */
  lemma AdmissionsOfCountsPermits(s: System, step: Step, lane: Workload)
    requires Exclusive(s)
    ensures AdmissionsOf(s, step, lane) == 1 <==>
            exists id :: Admits(s, step, id) && Apply(s, step).calls[id].request.workload == lane
  {
    var t := Apply(s, step);
    ExclusiveStep(s, step);
    if AdmissionsOf(s, step, lane) == 1 {
      hide Apply, EnterLane, PollLane;
      var id :| Holds(t, id, lane);
      assert !Holds(s, id, lane);
      assert Admits(s, step, id) by {
        if id in s.calls && s.calls[id].phase.Holding? {
          RequestIsFixed(s, step, id);
        }
      }
    }
    if id :| Admits(s, step, id) && t.calls[id].request.workload == lane {
      AdmittedBySomeStep(s, step, id);
      hide Apply;
      assert Holds(t, id, lane);
    }
  }

  /** The waiters ahead after each lock-held section, and by how much they shrank. */
  lemma EnterAddsNoneAhead(lanes: Lanes, capacity: nat, request: Request, flags: set<Flag>, ticket: Waiter)
    requires ticket.sequence < lanes.nextSequence && ticket.request.priority.Visible?
    ensures Ahead(EnterLane(lanes, capacity, request, flags).0.waiters, ticket) <= Ahead(lanes.waiters, ticket)
  {
    var newest := Waiter(lanes.nextSequence, request);
    FewerAhead(lanes.waiters, flags, ticket);
    AheadOfConcat(WithoutCancelled(lanes.waiters, flags), [newest], ticket);
    assert Ahead([newest], ticket) == 0;
    hide Ahead, Outranks, WithoutCancelled, LaneQueued;
  }

  lemma PollUsesUpThoseAhead(lanes: Lanes, workload: Workload, sequence: nat, flags: set<Flag>, ticket: Waiter,
                             polled: Waiter)
    requires polled.sequence == sequence && polled.request.workload == workload
    ensures var (after, outcome) := PollLane(lanes, workload, sequence, flags);
            && Ahead(after.waiters, ticket) <= Ahead(lanes.waiters, ticket)
            && (outcome.Granted? && workload == ticket.request.workload && Outranks(polled, ticket)
                && polled in lanes.waiters && polled.request.cancel !in flags ==>
                  Ahead(after.waiters, ticket) < Ahead(lanes.waiters, ticket))
  {
    FewerAhead(lanes.waiters, flags, ticket);
    OneFewerAhead(WithoutCancelled(lanes.waiters, flags), sequence, ticket);
  }

  lemma DropAddsNoneAhead(s: System, id: nat, ticket: Waiter)
    requires id in s.calls
    ensures Ahead(ApplyDrop(s, id).lanes.waiters, ticket) <= Ahead(s.lanes.waiters, ticket)
    ensures AdmissionsOf(s, Drop(id), ticket.request.workload) == 0
  {
    hide Ahead, Outranks, WithoutCancelled, WithoutSequence;
    FewerAhead(s.lanes.waiters, s.flags, ticket);
    if s.calls[id].Armed() {
      OneFewerAhead(s.lanes.waiters, s.calls[id].phase.sequence, ticket);
    }
  }

  /** What a poll does to the system, and which lane a grant makes active. */
  lemma PollMeans(s: System, id: nat, lane: Workload)
    requires id in s.calls && s.calls[id].phase.Waiting?
    ensures var call := s.calls[id];
            var (after, outcome) := PollLane(s.lanes, call.request.workload, call.phase.sequence, s.flags);
            && ApplyPoll(s, id).lanes == after && Apply(s, Poll(id)).lanes == after
            && (outcome.Granted? ==> Admits(s, Poll(id), id))
            && (AdmissionsOf(s, Poll(id), lane) == 1 ==> outcome.Granted? && call.request.workload == lane)
            && id in Apply(s, Poll(id)).calls && Apply(s, Poll(id)).calls[id].request == call.request
  {
    hide NextWaiter, WithoutCancelled, WithoutSequence, SequenceQueued;
  }

  lemma PollBrings(s: System, id: nat, a: nat)
    requires Owned(s) && WaitsUncancelled(s, a) && a != id
    requires id in s.calls && s.calls[id].phase.Waiting?
    ensures var ticket := s.calls[a].Ticket();
            Ahead(ApplyPoll(s, id).lanes.waiters, ticket) + AdmissionsOf(s, Poll(id), ticket.request.workload)
            <= Ahead(s.lanes.waiters, ticket)
  {
    var call, ticket := s.calls[id], s.calls[a].Ticket();
    assert OwningCall(s, a) && OwningCall(s, id);
    PollMeans(s, id, ticket.request.workload);
    hide PollLane, Apply, ApplyPoll, Admits, Ahead, OwnedWaiter, Sorted;
    PollUsesUpThoseAhead(s.lanes, call.request.workload, call.phase.sequence, s.flags, ticket, call.Ticket());
    if AdmissionsOf(s, Poll(id), ticket.request.workload) == 1 {
      AdmissionsRespectTheQueue(s, Poll(id), id, ticket);
    }
  }

  lemma VisibleWaiterMovesUp(s: System, step: Step, a: nat)
    requires Owned(s) && WaitsUncancelled(s, a) && s.calls[a].request.priority.Visible?
    requires WaitsUncancelled(Apply(s, step), a) && Apply(s, step).calls[a] == s.calls[a]
    requires |Apply(s, step).arrivals| <= SEQUENCES
    ensures var ticket := s.calls[a].Ticket();
            Ahead(Apply(s, step).lanes.waiters, ticket) + AdmissionsOf(s, step, ticket.request.workload)
            <= Ahead(s.lanes.waiters, ticket)
  {
    var ticket := s.calls[a].Ticket();
    hide Owned, OwnedWaiter, OwningCall, Ahead, Outranks, EnterLane, PollLane, WithoutCancelled, WithoutSequence;
    match step
    case Enter(id) => EnterBrings(s, id, a);
    case Poll(id) =>
      if id == a {
        OwnPollBrings(s, a);
      } else if id in s.calls && s.calls[id].phase.Waiting? {
        PollBrings(s, id, a);
      }
    case Drop(id) => if id in s.calls { DropAddsNoneAhead(s, id, ticket); }
    case _ =>
  }

  lemma OwnPollBrings(s: System, a: nat)
    requires WaitsUncancelled(s, a)
    requires WaitsUncancelled(Apply(s, Poll(a)), a)
    ensures var ticket := s.calls[a].Ticket();
            Ahead(Apply(s, Poll(a)).lanes.waiters, ticket) + AdmissionsOf(s, Poll(a), ticket.request.workload)
            <= Ahead(s.lanes.waiters, ticket)
  {
    hide Ahead, Outranks, WithoutCancelled, WithoutSequence, NextWaiter;
    FewerAhead(s.lanes.waiters, s.flags, s.calls[a].Ticket());
  }

  /** Entering past a queued Visible waiter neither joins ahead of it nor starts
      its lane. */
  lemma EnterOnLanes(lanes: Lanes, capacity: nat, request: Request, flags: set<Flag>, ticket: Waiter)
    requires ticket in lanes.waiters && ticket.request.cancel !in flags && ticket.request.priority.Visible?
    requires ticket.sequence < lanes.nextSequence || !EnterLane(lanes, capacity, request, flags).1.Queued?
    ensures var after, lane := EnterLane(lanes, capacity, request, flags).0, ticket.request.workload;
            && Ahead(after.waiters, ticket) <= Ahead(lanes.waiters, ticket)
            && (after.IsActive(lane) <==> lanes.IsActive(lane))
  {
    hide Ahead, Outranks, NextWaiter, NotGreater;
    if ticket.sequence < lanes.nextSequence {
      EnterAddsNoneAhead(lanes, capacity, request, flags, ticket);
    } else {
      FewerAhead(lanes.waiters, flags, ticket);
    }
    if request.workload == ticket.request.workload {
      LaneRules(lanes, capacity, request, flags, 0, ticket);
    }
  }

  lemma EnterBrings(s: System, id: nat, a: nat)
    requires Owned(s) && WaitsUncancelled(s, a) && s.calls[a].request.priority.Visible?
    requires |Apply(s, Enter(id)).arrivals| <= SEQUENCES
    ensures var ticket := s.calls[a].Ticket();
            Ahead(Apply(s, Enter(id)).lanes.waiters, ticket) + AdmissionsOf(s, Enter(id), ticket.request.workload)
            <= Ahead(s.lanes.waiters, ticket)
  {
    var ticket := s.calls[a].Ticket();
    assert OwningCall(s, a);
    if id in s.calls && s.calls[id].phase.Checked? {
      assert ticket.sequence < s.lanes.nextSequence || |s.arrivals| == SEQUENCES;
      hide Owned, OwnedWaiter, Sorted, Ahead, Outranks, EnterLane;
      EnterOnLanes(s.lanes, s.capacity, s.calls[id].request, s.flags, ticket);
    }
  }

  lemma {:induction false} AdmissionsUseUpThoseAhead(s: System, steps: seq<Step>, a: nat)
    requires Owned(s) && |Run(s, steps).arrivals| <= SEQUENCES
    requires a in s.calls && s.calls[a].phase.Waiting? && s.calls[a].request.priority.Visible?
    requires WaitsUncancelled(Run(s, steps), a)
    ensures LaneAdmissions(s, steps, s.calls[a].request.workload) <= Ahead(s.lanes.waiters, s.calls[a].Ticket())
    decreases |steps|
  {
    if steps != [] {
      WaitingStep(s, steps[0], steps[1..], a);
      ArrivalsOnlyGrow(Apply(s, steps[0]), steps[1..]);
      OwnedStep(s, steps[0]);
      VisibleWaiterMovesUp(s, steps[0], a);
      AdmissionsUseUpThoseAhead(Apply(s, steps[0]), steps[1..], a);
    }
  }

  /** While a Visible waiter is queued its lane admits at most capacity - 1 others. */
  lemma VisibleWaitIsBounded(s: System, steps: seq<Step>, a: nat)
    requires Exclusive(s) && Owned(s) && |Run(s, steps).arrivals| <= SEQUENCES
    requires a in s.calls && s.calls[a].phase.Waiting? && s.calls[a].request.priority.Visible?
    requires WaitsUncancelled(Run(s, steps), a)
    ensures LaneAdmissions(s, steps, s.calls[a].request.workload) <= s.capacity - 1
  {
    AdmissionsUseUpThoseAhead(s, steps, a);
    AheadAtMostOthers(s.lanes.waiters, s.calls[a].Ticket());
    FlagsStayRaised(s, steps);
    RequestsAreFixed(s, steps, a);
    assert OwningCall(s, a);
  }
}
