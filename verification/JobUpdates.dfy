// Update batches of a job (contracts.rs): what one batch must satisfy, and what
// the chain of batches a client polls amounts to.
module JobUpdates {
  import opened Machine

  type U64 = x: nat | x <= U64_MAX

  datatype Kind =
    | Progress | ImageRegionReady | ImageRegionPreserved | DocumentBlockReady | DocumentBlockPreserved
    | Complete | Failed | Cancelled

  /** An update; payloadIsValid stands for the checks on the fields of its kind. */
  datatype JobUpdate = JobUpdate(sequence: U64, kind: Kind, payloadIsValid: bool) {
    predicate IsTerminal() {
      kind.Complete? || kind.Failed? || kind.Cancelled?
    }
  }

  datatype JobUpdatesResponse = JobUpdatesResponse(jobIdIsValid: bool, nextSequence: U64, updates: seq<JobUpdate>)

  datatype Fault =
    | JobId | TooManyUpdates | SequenceZero(index: nat) | Payload(index: nat) | NotContiguous(index: nat)
    | TerminalNotLast(index: nat) | NextIsNotLast | FirstDoesNotFollow | NextMovedWithoutUpdates

  predicate IsAboutAnUpdate(fault: Fault) {
    fault.SequenceZero? || fault.Payload? || fault.NotContiguous? || fault.TerminalNotLast?
  }

  function CheckedIncrement(a: U64): Option<U64> {
    if a < U64_MAX then Some(a + 1) else None
  }

  /** What is wrong with the update at an index, in the order of the checks. */
  function FaultAt(updates: seq<JobUpdate>, index: nat): Option<Fault>
    requires index < |updates|
  {
    var update := updates[index];
    if update.sequence == 0 then Some(SequenceZero(index))
    else if !update.payloadIsValid then Some(Payload(index))
    else if index > 0 && CheckedIncrement(updates[index - 1].sequence) != Some(update.sequence) then
      Some(NotContiguous(index))
    else if update.IsTerminal() && index + 1 != |updates| then Some(TerminalNotLast(index))
    else None
  }

  predicate NoFaultBefore(updates: seq<JobUpdate>, end: nat)
    requires end <= |updates|
  {
    forall i | 0 <= i < end :: FaultAt(updates, i).None?
  }

  predicate IsValid(response: JobUpdatesResponse) {
    && response.jobIdIsValid
    && |response.updates| <= 1024
    && NoFaultBefore(response.updates, |response.updates|)
    && (response.updates != [] ==> response.nextSequence == response.updates[|response.updates| - 1].sequence)
  }

  /** Whether the response answers a poll that acknowledged `after`. */
  predicate Answers(response: JobUpdatesResponse, after: U64) {
    && IsValid(response)
    && (response.updates != [] ==> response.updates[0].sequence == SaturatingAdd(after, 1))
    && (response.updates == [] ==> response.nextSequence == after)
  }

  method Validate(response: JobUpdatesResponse) returns (fault: Option<Fault>)
    ensures fault.None? <==> IsValid(response)
    ensures fault.Some? ==> !fault.value.FirstDoesNotFollow? && !fault.value.NextMovedWithoutUpdates?
    ensures fault == Some(JobId) <==> !response.jobIdIsValid
    ensures fault == Some(TooManyUpdates) <==> response.jobIdIsValid && |response.updates| > 1024
    ensures fault.Some? && IsAboutAnUpdate(fault.value) ==>
              && fault.value.index < |response.updates|
              && FaultAt(response.updates, fault.value.index) == fault
              && NoFaultBefore(response.updates, fault.value.index)
    ensures fault == Some(NextIsNotLast) ==> NoFaultBefore(response.updates, |response.updates|)
  {
    if !response.jobIdIsValid {
      return Some(JobId);
    }
    if |response.updates| > 1024 {
      return Some(TooManyUpdates);
    }
    var previous: Option<U64> := None;
    for index := 0 to |response.updates|
      invariant previous == if index == 0 then None else Some(response.updates[index - 1].sequence)
      invariant NoFaultBefore(response.updates, index)
    {
      var update := response.updates[index];
      ghost var expected := FaultAt(response.updates, index);
      if update.sequence == 0 {
        return Some(SequenceZero(index));
      }
      if !update.payloadIsValid {
        return Some(Payload(index));
      }
      if previous.Some? && CheckedIncrement(previous.value) != Some(update.sequence) {
        return Some(NotContiguous(index));
      }
      if update.IsTerminal() && index + 1 != |response.updates| {
        return Some(TerminalNotLast(index));
      }
      previous := Some(update.sequence);
    }
    if response.updates != [] && response.nextSequence != response.updates[|response.updates| - 1].sequence {
      return Some(NextIsNotLast);
    }
    return None;
  }

  method ValidateAfter(response: JobUpdatesResponse, after: U64) returns (fault: Option<Fault>)
    ensures fault.None? <==> Answers(response, after)
    ensures !IsValid(response) <==>
              fault.Some? && !fault.value.FirstDoesNotFollow? && !fault.value.NextMovedWithoutUpdates?
  {
    fault := Validate(response);
    if fault.Some? {
      return;
    }
    if response.updates != [] && response.updates[0].sequence != SaturatingAdd(after, 1) {
      return Some(FirstDoesNotFollow);
    }
    if response.updates == [] && response.nextSequence != after {
      return Some(NextMovedWithoutUpdates);
    }
  }

  // ---- Chains of polls ----

  /** Each batch answers a poll that acknowledged the batch before it. */
  predicate Polled(after: U64, batches: seq<JobUpdatesResponse>)
    decreases |batches|
  {
    batches == [] || (Answers(batches[0], after) && Polled(batches[0].nextSequence, batches[1..]))
  }

  /** Some poll acknowledged the largest sequence and was still sent updates. */
  predicate PolledPastTheEnd(after: U64, batches: seq<JobUpdatesResponse>)
    decreases |batches|
  {
    batches != [] && ((after == U64_MAX && batches[0].updates != [])
                      || PolledPastTheEnd(batches[0].nextSequence, batches[1..]))
  }

  function Log(batches: seq<JobUpdatesResponse>): seq<JobUpdate> {
    if batches == [] then [] else batches[0].updates + Log(batches[1..])
  }

  /** The log is numbered after + 1, after + 2, and so on. */
  predicate Numbered(log: seq<JobUpdate>, after: nat) {
    forall i | 0 <= i < |log| :: log[i].sequence == after + 1 + i
  }

  /** What is asked of a batch whatever its numbering: a terminal update can
      only be the last one. */
  predicate ProperBatch(response: JobUpdatesResponse) {
    && response.jobIdIsValid
    && |response.updates| <= 1024
    && (forall i | 0 <= i < |response.updates| ::
          && response.updates[i].payloadIsValid
          && (response.updates[i].IsTerminal() ==> i == |response.updates| - 1))
  }

  predicate ProperBatches(batches: seq<JobUpdatesResponse>) {
    forall batch | batch in batches :: ProperBatch(batch)
  }

  /** Every batch acknowledges exactly the updates sent up to its end. */
  predicate Acknowledges(after: nat, batches: seq<JobUpdatesResponse>)
    decreases |batches|
  {
    batches == []
    || (batches[0].nextSequence == after + |batches[0].updates| && Acknowledges(batches[0].nextSequence, batches[1..]))
  }

  lemma {:induction false} ContiguousMeansNumbered(updates: seq<JobUpdate>, first: U64, n: nat)
    requires 0 < n <= |updates| && updates[0].sequence == first && NoFaultBefore(updates, |updates|)
    ensures forall i | 0 <= i < n :: updates[i].sequence == first + i
  {
    if n > 1 {
      ContiguousMeansNumbered(updates, first, n - 1);
      assert FaultAt(updates, n - 1).None?;
    }
  }

  /** One batch answers a poll below the largest sequence exactly when it is
      proper and its numbers go on from there. */
  lemma AnswersExactly(response: JobUpdatesResponse, after: U64)
    requires after < U64_MAX || response.updates == []
    ensures Answers(response, after) <==>
            ProperBatch(response) && Numbered(response.updates, after)
              && response.nextSequence == after + |response.updates|
  {
    var updates := response.updates;
    if Answers(response, after) {
      if updates != [] {
        ContiguousMeansNumbered(updates, after + 1, |updates|);
      }
      forall i | 0 <= i < |updates|
        ensures updates[i].payloadIsValid && (updates[i].IsTerminal() ==> i == |updates| - 1)
      {
        assert FaultAt(updates, i).None?;
      }
    }
  }

  /** A batch sent after the largest sequence was acknowledged repeats it. */
  lemma PastTheEndRepeats(response: JobUpdatesResponse)
    requires Answers(response, U64_MAX) && response.updates != []
    ensures |response.updates| == 1 && response.updates[0].sequence == U64_MAX == response.nextSequence
  {
    ContiguousMeansNumbered(response.updates, U64_MAX, 1);
    assert |response.updates| > 1 ==> FaultAt(response.updates, 1).None?;
  }

  lemma NumberedConcat(a: seq<JobUpdate>, b: seq<JobUpdate>, after: nat)
    ensures Numbered(a + b, after) <==> Numbered(a, after) && Numbered(b, after + |a|)
  {
    if Numbered(a + b, after) {
      forall i | 0 <= i < |a| ensures a[i].sequence == after + 1 + i {
        assert (a + b)[i] == a[i];
      }
      forall i | 0 <= i < |b| ensures b[i].sequence == after + |a| + 1 + i {
        assert (a + b)[|a| + i] == b[i];
      }
    }
  }

  lemma ProperBatchesCons(batches: seq<JobUpdatesResponse>)
    requires batches != []
    ensures ProperBatches(batches) <==> ProperBatch(batches[0]) && ProperBatches(batches[1..])
  {
    assert batches == [batches[0]] + batches[1..];
  }

  lemma {:induction false} ChainIsExactlyALog(after: U64, batches: seq<JobUpdatesResponse>)
    ensures Polled(after, batches) && !PolledPastTheEnd(after, batches) <==>
            ProperBatches(batches) && Numbered(Log(batches), after) && Acknowledges(after, batches)
    decreases |batches|
  {
    hide Answers, ProperBatch, ProperBatches, Numbered;
    if batches == [] {
      EmptyChain(after);
    } else {
      var batch, rest := batches[0], batches[1..];
      ProperBatchesCons(batches);
      NumberedConcat(batch.updates, Log(rest), after);
      ChainIsExactlyALog(batch.nextSequence, rest);
      if after < U64_MAX || batch.updates == [] {
        AnswersExactly(batch, after);
      } else {
        NothingAfterTheEnd(batch.updates);
      }
    }
  }

  lemma EmptyChain(after: nat)
    ensures ProperBatches([]) && Numbered([], after)
  {
  }

  lemma NothingAfterTheEnd(updates: seq<JobUpdate>)
    requires updates != []
    ensures !Numbered(updates, U64_MAX)
  {
    assert updates[0].sequence != U64_MAX + 1 + 0;
  }

  /** A chain polled from the start: the log is 1, 2, ..., n with no gap and no
      repeat exactly when no poll acknowledged the largest sequence and was
      still sent updates. */
  lemma LogIsGaplessExactlyBelowTheEnd(batches: seq<JobUpdatesResponse>)
    requires Polled(0, batches)
    ensures Numbered(Log(batches), 0) <==> !PolledPastTheEnd(0, batches)
    ensures ProperBatches(batches)
  {
    PolledBatchesAreProper(0, batches);
    if Numbered(Log(batches), 0) {
      NumberedNeverPastTheEnd(0, batches);
    } else {
      ChainIsExactlyALog(0, batches);
    }
    if !PolledPastTheEnd(0, batches) {
      ChainIsExactlyALog(0, batches);
    }
  }

  lemma {:induction false} PolledBatchesAreProper(after: U64, batches: seq<JobUpdatesResponse>)
    requires Polled(after, batches)
    ensures ProperBatches(batches)
    decreases |batches|
  {
    if batches != [] {
      var batch := batches[0];
      PolledBatchesAreProper(batch.nextSequence, batches[1..]);
      ProperBatchesCons(batches);
      forall i | 0 <= i < |batch.updates|
        ensures batch.updates[i].payloadIsValid && (batch.updates[i].IsTerminal() ==> i == |batch.updates| - 1)
      {
        assert FaultAt(batch.updates, i).None?;
      }
    }
  }

  lemma {:induction false} NumberedNeverPastTheEnd(after: U64, batches: seq<JobUpdatesResponse>)
    requires Polled(after, batches) && Numbered(Log(batches), after)
    ensures !PolledPastTheEnd(after, batches)
    decreases |batches|
  {
    if batches != [] {
      var batch := batches[0];
      NumberedConcat(batch.updates, Log(batches[1..]), after);
      if batch.updates != [] {
        assert batch.updates[0].sequence == after + 1 + 0;
      }
      AnswersExactly(batch, after);
      NumberedNeverPastTheEnd(batch.nextSequence, batches[1..]);
    }
  }

  /** The last acknowledgement counts the whole log. */
  lemma {:induction false} AcknowledgementsCountTheLog(after: nat, batches: seq<JobUpdatesResponse>)
    requires Acknowledges(after, batches) && batches != []
    ensures batches[|batches| - 1].nextSequence == after + |Log(batches)|
    decreases |batches|
  {
    var rest := batches[1..];
    if rest == [] {
      assert Log(rest) == [];
    } else {
      AcknowledgementsCountTheLog(batches[0].nextSequence, rest);
      assert rest[|rest| - 1] == batches[|batches| - 1];
    }
  }

  /** The saturating increment does accept the largest sequence twice. */
  lemma LargestSequenceCanRepeat(kind: Kind)
    ensures var update := JobUpdate(U64_MAX, kind, true);
            var response := JobUpdatesResponse(true, U64_MAX, [update]);
            Answers(response, U64_MAX - 1) && Answers(response, U64_MAX)
            && Polled(U64_MAX - 1, [response, response]) && Log([response, response]) == [update, update]
  {
    var update := JobUpdate(U64_MAX, kind, true);
    var response := JobUpdatesResponse(true, U64_MAX, [update]);
    assert FaultAt([update], 0).None?;
    assert [response, response][1..] == [response];
    assert Polled(U64_MAX, [response]);
    assert Log([response]) == [update] + Log([]);
  }

  /** Nothing in the contract keeps a batch from following a terminal one. */
  lemma UpdatesMayFollowATerminalBatch()
    ensures var done := JobUpdatesResponse(true, 1, [JobUpdate(1, Complete, true)]);
            var more := JobUpdatesResponse(true, 2, [JobUpdate(2, Progress, true)]);
            Polled(0, [done, more])
  {
    var done := JobUpdatesResponse(true, 1, [JobUpdate(1, Complete, true)]);
    var more := JobUpdatesResponse(true, 2, [JobUpdate(2, Progress, true)]);
    assert [done, more][1..] == [more];
    assert Polled(1, [more]);
  }

  // ---- Terminal updates over a chain ----

  predicate EndsTerminally(response: JobUpdatesResponse) {
    response.updates != [] && response.updates[|response.updates| - 1].IsTerminal()
  }

  predicate TerminalIsLast(log: seq<JobUpdate>) {
    forall i | 0 <= i < |log| - 1 :: !log[i].IsTerminal()
  }

  /** What a client can see before each poll: it asked on after a terminal
      update and was sent more. */
  predicate NothingFollowsATerminal(batches: seq<JobUpdatesResponse>) {
    forall i, j | 0 <= i < j < |batches| && EndsTerminally(batches[i]) :: batches[j].updates == []
  }

  /** In an accepted chain a terminal update can only be the log's last one
      exactly when no batch after a terminal one brings updates. */
  lemma TerminalIsLastExactlyWhenNothingFollows(after: U64, batches: seq<JobUpdatesResponse>)
    requires Polled(after, batches)
    ensures TerminalIsLast(Log(batches)) <==> NothingFollowsATerminal(batches)
  {
    PolledBatchesAreProper(after, batches);
    TerminalInProperBatches(batches);
  }

  lemma {:induction false} TerminalInProperBatches(batches: seq<JobUpdatesResponse>)
    requires ProperBatches(batches)
    ensures TerminalIsLast(Log(batches)) <==> NothingFollowsATerminal(batches)
  {
    if batches != [] {
      ProperBatchesCons(batches);
      TerminalInProperBatches(batches[1..]);
      NothingFollowsCons(batches);
      EmptyLogExactly(batches[1..]);
      hide NothingFollowsATerminal, ProperBatches;
      TerminalAcross(batches[0], Log(batches[1..]));
    }
  }

  lemma NothingFollowsCons(batches: seq<JobUpdatesResponse>)
    requires batches != []
    ensures NothingFollowsATerminal(batches) <==>
            && NothingFollowsATerminal(batches[1..])
            && (EndsTerminally(batches[0]) ==> AllEmpty(batches[1..]))
  {
    var rest := batches[1..];
    assert forall i | 0 <= i < |rest| :: rest[i] == batches[i + 1];
    if NothingFollowsATerminal(batches) {
      forall i, j | 0 <= i < j < |rest| && EndsTerminally(rest[i]) ensures rest[j].updates == [] {
        assert EndsTerminally(batches[i + 1]);
      }
      forall j | 0 <= j < |rest| && EndsTerminally(batches[0]) ensures rest[j].updates == [] {
        assert batches[j + 1].updates == [];
      }
    }
    if NothingFollowsATerminal(rest) && (EndsTerminally(batches[0]) ==> AllEmpty(rest)) {
      forall i, j | 0 <= i < j < |batches| && EndsTerminally(batches[i]) ensures batches[j].updates == [] {
        assert batches[j] == rest[j - 1];
        assert i > 0 ==> batches[i] == rest[i - 1];
      }
    }
  }

  predicate AllEmpty(batches: seq<JobUpdatesResponse>) {
    forall j | 0 <= j < |batches| :: batches[j].updates == []
  }

  lemma {:induction false} EmptyLogExactly(batches: seq<JobUpdatesResponse>)
    ensures Log(batches) == [] <==> AllEmpty(batches)
  {
    if batches != [] {
      EmptyLogExactly(batches[1..]);
      assert forall j | 1 <= j < |batches| :: batches[j] == batches[1..][j - 1];
      assert AllEmpty(batches) ==> AllEmpty(batches[1..]);
    }
  }

  lemma TerminalAcross(batch: JobUpdatesResponse, rest: seq<JobUpdate>)
    requires ProperBatch(batch)
    ensures TerminalIsLast(batch.updates + rest) <==> TerminalIsLast(rest) && (EndsTerminally(batch) ==> rest == [])
  {
    var all, n := batch.updates + rest, |batch.updates|;
    if TerminalIsLast(all) {
      forall i | 0 <= i < |rest| - 1 ensures !rest[i].IsTerminal() {
        assert all[n + i] == rest[i];
      }
      assert n > 0 && rest != [] ==> !all[n - 1].IsTerminal();
    }
    if TerminalIsLast(rest) && (EndsTerminally(batch) ==> rest == []) {
      forall i | 0 <= i < |all| - 1 ensures !all[i].IsTerminal() {
        if i >= n {
          assert all[i] == rest[i - n];
        } else {
          assert all[i] == batch.updates[i];
        }
      }
    }
  }
}
