// What the u64 sequence counter costs: selection is first come first served
// exactly while no later waiter carries a smaller number, and a run with one
// arrival more than the counter can number breaks the order.
module CudaWrap {
  import opened Machine
  import opened CudaAdmission
  import opened CudaRuns
  import opened CudaFairness

  /** Waiters are pushed at the back and never reordered, so ws[i] is the one
      of highest priority in its lane that has been queued for longest. */
  ghost predicate LongestQueued(ws: seq<Waiter>, lane: Workload, i: nat) {
    && i < |ws| && ws[i].request.workload == lane
    && forall j | 0 <= j < |ws| && ws[j].request.workload == lane ::
         if j < i then ws[j].request.priority.Offscreen? && ws[i].request.priority.Visible?
         else ws[i].request.priority.Visible? || ws[j].request.priority.Offscreen?
  }

  lemma SelectionIsFirstComeFirstServed(ws: seq<Waiter>, lane: Workload, i: nat)
    requires LongestQueued(ws, lane, i)
    ensures NextWaiter(ws, lane).Some?
    ensures NextWaiter(ws, lane).value.sequence == ws[i].sequence <==>
            forall j | i < j < |ws| && ws[j].request.workload == lane
                       && ws[j].request.priority == ws[i].request.priority ::
              ws[i].sequence <= ws[j].sequence
  {
    NextWaiterIsGreatest(ws, lane);
    assert ws[i] in ws;
    var k :| 0 <= k < |ws| && ws[k] == NextWaiter(ws, lane).value;
  }

  lemma {:induction false} RunConcat(s: System, first: seq<Step>, second: seq<Step>)
    ensures Run(s, first + second) == Run(Run(s, first), second)
    decreases |first|
  {
    if first == [] {
      assert first + second == second;
    } else {
      assert (first + second)[1..] == first[1..] + second;
      RunConcat(Apply(s, first[0]), first[1..], second);
    }
  }

  const REQUEST := Request(Vision, Visible, 0)

  /** Call 0 holds the Vision lane, nobody waits, ids from `next` on are unused. */
  ghost predicate Busy(s: System, next: nat, sequence: nat) {
    && s.lanes == Lanes(true, false, sequence, []) && s.flags == {} && s.capacity >= 2
    && 0 in s.calls && s.calls[0] == Call(REQUEST, Holding)
    && next > 0 && (forall id | id in s.calls :: id < next)
  }

  /** A call that queues and gives up uses one sequence number. */
  lemma QueueAndGiveUp(s: System, next: nat, sequence: nat)
    requires Busy(s, next, sequence) && sequence + 1 < SEQUENCES
    ensures var t := Run(s, [Begin(next, REQUEST), Enter(next), Drop(next)]);
            Busy(t, next + 1, sequence + 1) && |t.arrivals| == |s.arrivals| + 1
  {
    var s1 := Apply(s, Begin(next, REQUEST));
    var s2 := Apply(s1, Enter(next));
    assert s2.lanes.waiters == [Waiter(sequence, REQUEST)];
    var s3 := Apply(s2, Drop(next));
    assert s3.lanes.waiters == [];
    assert Run(s1, [Enter(next), Drop(next)]) == s3 by {
      assert Run(s2, [Drop(next)]) == s3;
    }
  }

  lemma {:induction false} UseUpSequences(s: System, next: nat, sequence: nat, n: nat) returns (steps: seq<Step>)
    requires Busy(s, next, sequence) && sequence + n < SEQUENCES
    ensures Busy(Run(s, steps), next + n, sequence + n)
    ensures |Run(s, steps).arrivals| == |s.arrivals| + n
    decreases n
  {
    if n == 0 {
      steps := [];
    } else {
      var once := [Begin(next, REQUEST), Enter(next), Drop(next)];
      QueueAndGiveUp(s, next, sequence);
      var rest := UseUpSequences(Run(s, once), next + 1, sequence + 1, n - 1);
      steps := once + rest;
      RunConcat(s, once, rest);
    }
  }

  lemma TwoArrivalsAroundTheWrap(s: System, a: nat)
    requires Busy(s, a, SEQUENCES - 1)
    ensures var t := Run(s, [Begin(a, REQUEST), Enter(a), Begin(a + 1, REQUEST), Enter(a + 1), Drop(0)]);
            && t.lanes == Lanes(false, false, 1, [Waiter(SEQUENCES - 1, REQUEST), Waiter(0, REQUEST)])
            && t.calls.Keys == s.calls.Keys + {a, a + 1} && t.flags == {}
            && t.calls[a] == Call(REQUEST, Waiting(SEQUENCES - 1)) && t.calls[a + 1] == Call(REQUEST, Waiting(0))
            && |t.arrivals| == |s.arrivals| + 2
  {
    hide PollLane, CancelWaiter, NextWaiter;
    var s1 := Apply(s, Begin(a, REQUEST));
    var s2 := Apply(s1, Enter(a));
    assert s2.lanes == Lanes(true, false, 0, [Waiter(SEQUENCES - 1, REQUEST)]);
    var s3 := Apply(s2, Begin(a + 1, REQUEST));
    var s4 := Apply(s3, Enter(a + 1));
    var both := [Waiter(SEQUENCES - 1, REQUEST), Waiter(0, REQUEST)];
    assert WithoutCancelled(s3.lanes.waiters, {}) == [Waiter(SEQUENCES - 1, REQUEST)];
    assert s4.lanes == Lanes(true, false, 1, both);
    var s5 := Apply(s4, Drop(0));
    assert WithoutCancelled(both[1..], {}) == both[1..];
    assert WithoutCancelled(both, {}) == both;
    assert Run(s4, [Drop(0)]) == s5;
    assert Run(s3, [Enter(a + 1), Drop(0)]) == s5;
    assert Run(s2, [Begin(a + 1, REQUEST), Enter(a + 1), Drop(0)]) == s5;
    assert Run(s1, [Enter(a), Begin(a + 1, REQUEST), Enter(a + 1), Drop(0)]) == s5;
  }

  /** With 2^64 + 1 arrivals the later of two equal requests is admitted first:
      the bound on arrivals in the fairness results cannot be raised by one. */
  lemma OneArrivalTooMany(capacity: nat) returns (steps: seq<Step>, a: nat, b: nat)
    requires capacity >= 2
    ensures var s := Run(Initial(capacity), steps);
            && |s.arrivals| == SEQUENCES + 1
            && WaitsUncancelled(s, a) && WaitsUncancelled(s, b) && s.calls[a].request == s.calls[b].request
            && s.lanes.waiters == [s.calls[a].Ticket(), s.calls[b].Ticket()]
            && Admits(s, Poll(b), b)
  {
    var grab := [Begin(0, REQUEST), Enter(0)];
    var s := Initial(capacity);
    var s1 := Apply(s, Begin(0, REQUEST));
    assert Run(s1, [Enter(0)]) == Apply(s1, Enter(0));
    assert Busy(Run(s, grab), 1, 0);
    var churn := UseUpSequences(Run(s, grab), 1, 0, SEQUENCES - 1);
    RunConcat(s, grab, churn);
    a, b := SEQUENCES, SEQUENCES + 1;
    var last := [Begin(a, REQUEST), Enter(a), Begin(a + 1, REQUEST), Enter(a + 1), Drop(0)];
    TwoArrivalsAroundTheWrap(Run(s, grab + churn), a);
    RunConcat(s, grab + churn, last);
    steps := grab + churn + last;
    hide Run, Apply, Busy;
    LaterIsAdmitted(Run(s, steps), a, b);
  }

  /** Of two waiters around the wrap the later one has its next poll granted. */
  lemma LaterIsAdmitted(s: System, a: nat, b: nat)
    requires s.lanes == Lanes(false, false, 1, [Waiter(SEQUENCES - 1, REQUEST), Waiter(0, REQUEST)]) && s.flags == {}
    requires a in s.calls && s.calls[a] == Call(REQUEST, Waiting(SEQUENCES - 1))
    requires b in s.calls && s.calls[b] == Call(REQUEST, Waiting(0))
    ensures WaitsUncancelled(s, a) && WaitsUncancelled(s, b) && s.calls[a].request == s.calls[b].request
    ensures s.lanes.waiters == [s.calls[a].Ticket(), s.calls[b].Ticket()]
    ensures Admits(s, Poll(b), b)
  {
    var both := [Waiter(SEQUENCES - 1, REQUEST), Waiter(0, REQUEST)];
    assert WithoutCancelled(both[1..], {}) == both[1..];
    assert WithoutCancelled(both, {}) == both;
    assert both[..1] == [both[0]];
    assert NextWaiter(both, Vision) == Some(both[1]);
  }
}
