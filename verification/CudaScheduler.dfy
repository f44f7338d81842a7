// The admission scheduler of cuda_scheduler.rs: two lanes share one bounded
// list of waiters. Each lock-held section is a function on the guarded value
// (`Lanes`) and a method of the class that changes the guarded fields.
module CudaAdmission {
  import opened Machine

  /** The sequence counter is a u64. */
  const SEQUENCES: nat := 0x1_0000_0000_0000_0000

  /** Identity of a shared cancellation flag. */
  type Flag = nat

  datatype Priority = Offscreen | Visible

  datatype Workload = Vision | Language

  datatype Request = Request(workload: Workload, priority: Priority, cancel: Flag)

  datatype Waiter = Waiter(sequence: nat, request: Request)

  /** The value guarded by the scheduler's lock. */
  datatype Lanes = Lanes(visionActive: bool, languageActive: bool, nextSequence: nat, waiters: seq<Waiter>) {
    predicate IsActive(workload: Workload) {
      match workload
      case Vision => visionActive
      case Language => languageActive
    }

    function SetActive(workload: Workload, active: bool): Lanes {
      match workload
      case Vision => this.(visionActive := active)
      case Language => this.(languageActive := active)
    }
  }

  const EMPTY := Lanes(false, false, 0, [])

  datatype EnterOutcome = Admitted | Queued(sequence: nat) | QueueFull

  datatype PollOutcome = Granted | Pending | Cancelled

  function WithoutCancelled(ws: seq<Waiter>, flags: set<Flag>): (kept: seq<Waiter>)
    ensures |kept| <= |ws|
    ensures forall w :: w in kept <==> w in ws && w.request.cancel !in flags
  {
    if ws == [] then []
    else (if ws[0].request.cancel in flags then [] else [ws[0]]) + WithoutCancelled(ws[1..], flags)
  }

  function WithoutSequence(ws: seq<Waiter>, sequence: nat): (kept: seq<Waiter>)
    ensures |kept| <= |ws|
    ensures forall w :: w in kept <==> w in ws && w.sequence != sequence
  {
    if ws == [] then []
    else (if ws[0].sequence == sequence then [] else [ws[0]]) + WithoutSequence(ws[1..], sequence)
  }

  predicate LaneQueued(ws: seq<Waiter>, workload: Workload) {
    exists w | w in ws :: w.request.workload == workload
  }

  predicate SequenceQueued(ws: seq<Waiter>, sequence: nat) {
    exists w | w in ws :: w.sequence == sequence
  }

  /** The comparison handed to max_by does not put `left` after `right`. */
  predicate NotGreater(left: Waiter, right: Waiter) {
    || (left.request.priority == Offscreen && right.request.priority == Visible)
    || (left.request.priority == right.request.priority && right.sequence <= left.sequence)
  }

  /** The waiter max_by selects among those of one lane; of equals, the last. */
  function NextWaiter(ws: seq<Waiter>, workload: Workload): Option<Waiter> {
    if ws == [] then None
    else
      var last := ws[|ws| - 1];
      var best := NextWaiter(ws[..|ws| - 1], workload);
      if last.request.workload == workload && (best.None? || NotGreater(best.value, last)) then Some(last) else best
  }

  /** The lock-held section with which acquire begins. */
  function EnterLane(lanes: Lanes, capacity: nat, request: Request, flags: set<Flag>): (Lanes, EnterOutcome) {
    var live := lanes.(waiters := WithoutCancelled(lanes.waiters, flags));
    if !live.IsActive(request.workload) && !LaneQueued(live.waiters, request.workload) then
      (live.SetActive(request.workload, true), Admitted)
    else if |live.waiters| >= capacity then
      (live, QueueFull)
    else
      (live.(nextSequence := (live.nextSequence + 1) % SEQUENCES,
             waiters := live.waiters + [Waiter(live.nextSequence, request)]),
       Queued(live.nextSequence))
  }

  /** The lock-held section acquire repeats while it waits. */
  function PollLane(lanes: Lanes, workload: Workload, sequence: nat, flags: set<Flag>): (Lanes, PollOutcome) {
    var live := lanes.(waiters := WithoutCancelled(lanes.waiters, flags));
    var next := NextWaiter(live.waiters, workload);
    if !live.IsActive(workload) && next.Some? && next.value.sequence == sequence then
      (live.(waiters := WithoutSequence(live.waiters, sequence)).SetActive(workload, true), Granted)
    else if !SequenceQueued(live.waiters, sequence) then
      (live, Cancelled)
    else
      (live, Pending)
  }

  function CancelWaiter(lanes: Lanes, sequence: nat): Lanes {
    lanes.(waiters := WithoutSequence(lanes.waiters, sequence))
  }

  function ReleaseLane(lanes: Lanes, workload: Workload, flags: set<Flag>): Lanes {
    lanes.SetActive(workload, false).(waiters := WithoutCancelled(lanes.waiters, flags))
  }

  // The guarded fields and the scheduler that owns them.

  class SchedulerState {
    var visionActive: bool
    var languageActive: bool
    var nextSequence: nat
    var waiters: seq<Waiter>

    constructor ()
      ensures Value() == EMPTY
    {
      visionActive, languageActive, nextSequence, waiters := false, false, 0, [];
    }

    function Value(): Lanes
      reads this
    {
      Lanes(visionActive, languageActive, nextSequence, waiters)
    }

    method RemoveCancelled(flags: set<Flag>)
      modifies this
      ensures Value() == old(Value()).(waiters := WithoutCancelled(old(waiters), flags))
    {
      waiters := WithoutCancelled(waiters, flags);
    }

    method SetActive(workload: Workload, active: bool)
      modifies this
      ensures Value() == old(Value()).SetActive(workload, active)
    {
      match workload
      case Vision => visionActive := active;
      case Language => languageActive := active;
    }

    method NextWaiterSequence(workload: Workload) returns (sequence: Option<nat>)
      ensures sequence == match NextWaiter(waiters, workload) case None => None case Some(w) => Some(w.sequence)
    {
      var best: Option<Waiter> := None;
      for i := 0 to |waiters|
        invariant best == NextWaiter(waiters[..i], workload)
      {
        assert waiters[..i + 1][..i] == waiters[..i];
        if waiters[i].request.workload == workload && (best.None? || NotGreater(best.value, waiters[i])) {
          best := Some(waiters[i]);
        }
      }
      assert waiters[..|waiters|] == waiters;
      sequence := if best.None? then None else Some(best.value.sequence);
    }

    method RemoveWaiter(sequence: nat) returns (removed: bool)
      modifies this
      ensures Value() == CancelWaiter(old(Value()), sequence)
      ensures removed <==> SequenceQueued(old(waiters), sequence)
    {
      var before := |waiters|;
      RemovalShortens(waiters, sequence);
      waiters := WithoutSequence(waiters, sequence);
      removed := |waiters| != before;
    }
  }

  lemma {:induction false} RemovalShortens(ws: seq<Waiter>, sequence: nat)
    ensures |WithoutSequence(ws, sequence)| < |ws| <==> SequenceQueued(ws, sequence)
  {
    if ws != [] {
      RemovalShortens(ws[1..], sequence);
      if SequenceQueued(ws, sequence) && ws[0].sequence != sequence {
        var w :| w in ws && w.sequence == sequence;
        assert w in ws[1..];
      }
    }
  }

  class CudaScheduler {
    const capacity: nat
    const state: SchedulerState

    constructor (capacity: nat)
      requires capacity > 0
      ensures fresh(state) && state.Value() == EMPTY && this.capacity == capacity
    {
      this.capacity := capacity;
      state := new SchedulerState();
    }

    method Enter(request: Request, flags: set<Flag>) returns (outcome: EnterOutcome)
      modifies state
      ensures (state.Value(), outcome) == EnterLane(old(state.Value()), capacity, request, flags)
    {
      hide WithoutCancelled, LaneQueued;
      state.RemoveCancelled(flags);
      if !state.Value().IsActive(request.workload) && !LaneQueued(state.waiters, request.workload) {
        state.SetActive(request.workload, true);
        return Admitted;
      }
      if |state.waiters| >= capacity {
        return QueueFull;
      }
      var sequence := state.nextSequence;
      state.nextSequence := (state.nextSequence + 1) % SEQUENCES;
      state.waiters := state.waiters + [Waiter(sequence, request)];
      outcome := Queued(sequence);
    }

    method Poll(workload: Workload, sequence: nat, flags: set<Flag>) returns (outcome: PollOutcome)
      modifies state
      ensures (state.Value(), outcome) == PollLane(old(state.Value()), workload, sequence, flags)
    {
      hide WithoutCancelled, WithoutSequence, NextWaiter, SequenceQueued;
      state.RemoveCancelled(flags);
      var next := state.NextWaiterSequence(workload);
      if !state.Value().IsActive(workload) && next == Some(sequence) {
        var removed := state.RemoveWaiter(sequence);
        state.SetActive(workload, true);
        return Granted;
      }
      outcome := if SequenceQueued(state.waiters, sequence) then Pending else Cancelled;
    }

    method Cancel(sequence: nat)
      modifies state
      ensures state.Value() == CancelWaiter(old(state.Value()), sequence)
    {
      var removed := state.RemoveWaiter(sequence);
    }

    method Release(workload: Workload, flags: set<Flag>)
      modifies state
      ensures state.Value() == ReleaseLane(old(state.Value()), workload, flags)
    {
      state.SetActive(workload, false);
      state.RemoveCancelled(flags);
    }
  }
}
