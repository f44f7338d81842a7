// Whole runs of the admission scheduler: any number of acquire calls, polled,
// cancelled, aborted and released in any order.
module CudaRuns {
  import opened CudaAdmission

  /** Where one call of acquire stands. An armed registration exists from the
      moment the waiter is queued until it is disarmed by a grant or dropped. */
  datatype Phase =
    | Checked
    | Waiting(sequence: nat)
    | Leaving(sequence: nat)
    | Holding
    | Ended

  datatype Call = Call(request: Request, phase: Phase) {
    predicate Armed() {
      phase.Waiting? || phase.Leaving?
    }

    function Ticket(): Waiter
      requires Armed()
    {
      Waiter(phase.sequence, request)
    }
  }

  /** `arrivals` records which call enqueued the k-th waiter of the run. */
  datatype System = System(
    capacity: nat,
    lanes: Lanes,
    flags: set<Flag>,
    calls: map<nat, Call>,
    arrivals: seq<nat>)

  /** A step that is not enabled leaves the system as it is. */
  datatype Step =
    | Begin(id: nat, request: Request) // acquire is called and reads the flag
    | Enter(id: nat)                   // its first lock-held section
    | CheckFlag(id: nat)               // the flag is read at the top of the loop
    | Poll(id: nat)                    // the lock-held section of the loop
    | Drop(id: nat)                    // the future, its registration or the permit is dropped
    | Raise(flag: Flag)

  function Move(s: System, id: nat, phase: Phase): System
    requires id in s.calls
  {
    s.(calls := s.calls[id := s.calls[id].(phase := phase)])
  }

  function ApplyEnter(s: System, id: nat): System
    requires id in s.calls
  {
    var (lanes, outcome) := EnterLane(s.lanes, s.capacity, s.calls[id].request, s.flags);
    match outcome
    case Admitted => Move(s.(lanes := lanes), id, Holding)
    case QueueFull => Move(s.(lanes := lanes), id, Ended)
    case Queued(q) => Move(s.(lanes := lanes, arrivals := s.arrivals + [id]), id, Waiting(q))
  }

  function ApplyPoll(s: System, id: nat): System
    requires id in s.calls && s.calls[id].phase.Waiting?
  {
    var q := s.calls[id].phase.sequence;
    var (lanes, outcome) := PollLane(s.lanes, s.calls[id].request.workload, q, s.flags);
    match outcome
    case Granted => Move(s.(lanes := lanes), id, Holding)
    case Cancelled => Move(s.(lanes := lanes), id, Leaving(q))
    case Pending => s.(lanes := lanes)
  }

  function ApplyDrop(s: System, id: nat): System
    requires id in s.calls
  {
    match s.calls[id].phase
    case Checked => Move(s, id, Ended)
    case Waiting(q) => Move(s.(lanes := CancelWaiter(s.lanes, q)), id, Ended)
    case Leaving(q) => Move(s.(lanes := CancelWaiter(s.lanes, q)), id, Ended)
    case Holding => Move(s.(lanes := ReleaseLane(s.lanes, s.calls[id].request.workload, s.flags)), id, Ended)
    case Ended => s
  }

  function Apply(s: System, step: Step): System {
    match step
    case Begin(id, request) =>
      if id in s.calls then s
      else s.(calls := s.calls[id := Call(request, if request.cancel in s.flags then Ended else Checked)])
    case Enter(id) =>
      if id in s.calls && s.calls[id].phase.Checked? then ApplyEnter(s, id) else s
    case CheckFlag(id) =>
      if id in s.calls && s.calls[id].phase.Waiting? && s.calls[id].request.cancel in s.flags
      then Move(s, id, Leaving(s.calls[id].phase.sequence))
      else s
    case Poll(id) =>
      if id in s.calls && s.calls[id].phase.Waiting? then ApplyPoll(s, id) else s
    case Drop(id) =>
      if id in s.calls then ApplyDrop(s, id) else s
    case Raise(flag) => s.(flags := s.flags + {flag})
  }

  function Run(s: System, steps: seq<Step>): System
    decreases |steps|
  {
    if steps == [] then s else Run(Apply(s, steps[0]), steps[1..])
  }

  function Initial(capacity: nat): System {
    System(capacity, EMPTY, {}, map[], [])
  }

  // ---- Exclusivity and the queue bound, over every run whatsoever ----

  predicate Holds(s: System, id: nat, workload: Workload) {
    id in s.calls && s.calls[id].phase.Holding? && s.calls[id].request.workload == workload
  }

  /** A lane is active exactly when one live permit for it exists, never two;
      the waiters never outnumber the capacity. */
  ghost predicate Exclusive(s: System) {
    && (forall w :: s.lanes.IsActive(w) <==> exists id :: Holds(s, id, w))
    && (forall w, id, other :: Holds(s, id, w) && Holds(s, other, w) ==> id == other)
    && |s.lanes.waiters| <= s.capacity
  }

  lemma SameHolders(s: System, t: System)
    requires Exclusive(s)
    requires forall id, w :: Holds(t, id, w) <==> Holds(s, id, w)
    requires forall w :: t.lanes.IsActive(w) <==> s.lanes.IsActive(w)
    requires |t.lanes.waiters| <= t.capacity
    ensures Exclusive(t)
  {
    forall w: Workload
      ensures t.lanes.IsActive(w) <==> exists id :: Holds(t, id, w)
    {
      if s.lanes.IsActive(w) {
        var id :| Holds(s, id, w);
        assert Holds(t, id, w);
      }
    }
  }

  /** A permit is handed out only while its lane is idle. */
  lemma OneMoreHolder(s: System, t: System, id: nat, lane: Workload)
    requires Exclusive(s) && !s.lanes.IsActive(lane)
    requires forall other, w :: Holds(t, other, w) <==> Holds(s, other, w) || (other == id && w == lane)
    requires forall w :: t.lanes.IsActive(w) <==> s.lanes.IsActive(w) || w == lane
    requires |t.lanes.waiters| <= t.capacity
    ensures Exclusive(t)
  {
    assert Holds(t, id, lane);
    forall w: Workload
      ensures t.lanes.IsActive(w) <==> exists other :: Holds(t, other, w)
    {
      if s.lanes.IsActive(w) {
        var other :| Holds(s, other, w);
        assert Holds(t, other, w);
      }
    }
  }

  lemma OneFewerHolder(s: System, t: System, id: nat, lane: Workload)
    requires Exclusive(s) && Holds(s, id, lane)
    requires forall other, w :: Holds(t, other, w) <==> Holds(s, other, w) && other != id
    requires forall w :: t.lanes.IsActive(w) <==> s.lanes.IsActive(w) && w != lane
    requires |t.lanes.waiters| <= t.capacity
    ensures Exclusive(t)
  {
    forall w: Workload
      ensures t.lanes.IsActive(w) <==> exists other :: Holds(t, other, w)
    {
      if t.lanes.IsActive(w) {
        var other :| Holds(s, other, w);
        assert Holds(t, other, w);
      }
    }
  }

  lemma ExclusiveEnter(s: System, id: nat)
    requires Exclusive(s) && id in s.calls && s.calls[id].phase.Checked?
    ensures Exclusive(ApplyEnter(s, id))
  {
    var t := ApplyEnter(s, id);
    var lane := s.calls[id].request.workload;
    if EnterLane(s.lanes, s.capacity, s.calls[id].request, s.flags).1.Admitted? {
      OneMoreHolder(s, t, id, lane);
    } else {
      SameHolders(s, t);
    }
  }

  lemma ExclusivePoll(s: System, id: nat)
    requires Exclusive(s) && id in s.calls && s.calls[id].phase.Waiting?
    ensures Exclusive(ApplyPoll(s, id))
  {
    var t := ApplyPoll(s, id);
    var call := s.calls[id];
    if PollLane(s.lanes, call.request.workload, call.phase.sequence, s.flags).1.Granted? {
      OneMoreHolder(s, t, id, call.request.workload);
    } else {
      SameHolders(s, t);
    }
  }

  lemma ExclusiveDrop(s: System, id: nat)
    requires Exclusive(s) && id in s.calls
    ensures Exclusive(ApplyDrop(s, id))
  {
    var t := ApplyDrop(s, id);
    if s.calls[id].phase.Holding? {
      assert Holds(s, id, s.calls[id].request.workload);
      OneFewerHolder(s, t, id, s.calls[id].request.workload);
    } else {
      SameHolders(s, t);
    }
  }

  lemma ExclusiveStep(s: System, step: Step)
    requires Exclusive(s)
    ensures Exclusive(Apply(s, step))
  {
    var t := Apply(s, step);
    if t != s {
      match step
      case Enter(id) => ExclusiveEnter(s, id);
      case Poll(id) => ExclusivePoll(s, id);
      case Drop(id) => ExclusiveDrop(s, id);
      case _ => SameHolders(s, t);
    }
  }

  lemma {:induction false} AlwaysExclusive(s: System, steps: seq<Step>)
    requires Exclusive(s)
    ensures Exclusive(Run(s, steps))
    decreases |steps|
  {
    if steps != [] {
      ExclusiveStep(s, steps[0]);
      AlwaysExclusive(Apply(s, steps[0]), steps[1..]);
    }
  }

  lemma EveryReachableStateIsExclusive(capacity: nat, steps: seq<Step>)
    ensures Exclusive(Run(Initial(capacity), steps))
  {
    AlwaysExclusive(Initial(capacity), steps);
  }
}
