// DocumentPipeline::run as a whole: planning, the dispatch loop with put-backs
// when the browser's focus moves, and the final sweep.
module DocumentLoop {
  import opened Machine
  import opened Sorting
  import opened DocumentBatches
  import opened NeighborContext
  import opened DocumentPlan
  import opened DocumentRun
  import opened DocumentSchedule

  /** Plans the targeted blocks: their pieces in order, and the full context. */
  method PlanDocument(plan: Plan, retry: seq<string>)
    returns (remaining: seq<Piece>, contextPlan: seq<Span>, ghost next: seq<nat>)
    requires plan.Valid()
    ensures contextPlan == plan.ContextPlan() && |next| == |plan.blocks|
    ensures Frontier(plan, next) && IsQueue(plan, next, remaining)
    ensures forall i | 0 <= i < |next| :: next[i] == if Targeted(plan, retry, i) then 0 else |plan.Pieces(i)|
  {
    hide BlockSpans, BlockPieces, PieceId;
    remaining, contextPlan, next := [], [], [];
    for i := 0 to |plan.blocks|
      invariant contextPlan == plan.Spans(i)
      invariant |next| == i
      invariant forall j | 0 <= j < i :: next[j] == if Targeted(plan, retry, j) then 0 else |plan.Pieces(j)|
      invariant forall p :: p in remaining <==>
                  plan.Planned(p) && p.blockIndex < i && Targeted(plan, retry, p.blockIndex)
      invariant forall j, k | 0 <= j < k < |remaining| :: remaining[j] != remaining[k]
    {
      contextPlan := contextPlan + BlockSpans(i, plan.blocks[i], plan.splits[i]);
      next := next + [if Targeted(plan, retry, i) then 0 else |plan.Pieces(i)|];
      if Targeted(plan, retry, i) {
        AppendBlock(plan, retry, i, remaining);
        remaining := remaining + plan.Pieces(i);
      }
    }
  }

  lemma AppendBlock(plan: Plan, retry: seq<string>, i: nat, remaining: seq<Piece>)
    requires plan.Valid() && i < |plan.blocks| && Targeted(plan, retry, i)
    requires forall p :: p in remaining <==> plan.Planned(p) && p.blockIndex < i && Targeted(plan, retry, p.blockIndex)
    requires forall j, k | 0 <= j < k < |remaining| :: remaining[j] != remaining[k]
    ensures var longer := remaining + plan.Pieces(i);
            && (forall p :: p in longer <==>
                plan.Planned(p) && p.blockIndex < i + 1 && Targeted(plan, retry, p.blockIndex))
            && (forall j, k | 0 <= j < k < |longer| :: longer[j] != longer[k])
  {
    var pieces := plan.Pieces(i);
    var longer := remaining + pieces;
    forall p
      ensures p in pieces <==> plan.Planned(p) && p.blockIndex == i
    {
    }
    forall j, k | 0 <= j < k < |longer|
      ensures longer[j] != longer[k]
    {
      if j < |remaining| <= k {
        assert longer[j] in remaining && longer[k] in pieces;
      } else if |remaining| <= j {
        assert longer[j] == pieces[j - |remaining|] && longer[k] == pieces[k - |remaining|];
      }
    }
  }

  method OpenAccumulators(plan: Plan, retry: seq<string>, world: World, ghost next: seq<nat>)
    returns (accs: seq<DocumentAccumulator>)
    requires plan.Valid() && Frontier(plan, next)
    requires forall i | 0 <= i < |next| :: next[i] == if Targeted(plan, retry, i) then 0 else |plan.Pieces(i)|
    ensures fresh(accs)
    ensures Accounts(plan, retry, world, next, accs, [])
  {
    accs := [];
    for i := 0 to |plan.blocks|
      invariant |accs| == i && fresh(accs)
      invariant forall j, k | 0 <= j < k < i :: accs[j] != accs[k]
      invariant forall j | 0 <= j < i :: accs[j].Sound(plan, world, j, next[j])
      invariant forall j | 0 <= j < i :: accs[j].published <==> !Targeted(plan, retry, j)
    {
      var accumulator := new DocumentAccumulator(plan.blocks[i], |plan.Pieces(i)|);
      accumulator.published := !Targeted(plan, retry, i);
      if plan.splits[i].Unsplittable? {
        accumulator.Reject(plan.splits[i].reason);
      }
      assert accumulator.Sound(plan, world, i, next[i]);
      accs := accs + [accumulator];
    }
  }

  ghost predicate EndsTargetedBlock(plan: Plan, retry: seq<string>, world: World, update: Update)
    requires plan.Valid()
  {
    exists i: nat | i < |plan.blocks| :: Targeted(plan, retry, i) && IsTerminal(plan, world, i, update)
  }

  /** Any terminal updates already sent are right and none is sent twice;
      a finished run has sent one for every targeted block. */
  ghost predicate Delivered(plan: Plan, retry: seq<string>, world: World, result: RunResult, log: seq<Update>)
    requires plan.Valid()
  {
    && (forall k | 0 <= k < |log| :: EndsTargetedBlock(plan, retry, world, log[k]))
    && (forall j, k | 0 <= j < k < |log| :: log[j].itemId != log[k].itemId)
    && (result.Finished? ==>
          forall i | 0 <= i < |plan.blocks| && Targeted(plan, retry, i) ::
            exists k | 0 <= k < |log| :: IsTerminal(plan, world, i, log[k]))
  }

  lemma SoundLogIsDelivered(plan: Plan, retry: seq<string>, world: World, result: RunResult, log: seq<Update>,
                            owner: seq<nat>)
    requires plan.Valid() && LogSound(plan, retry, world, log, owner)
    requires result.Finished? ==> forall i | 0 <= i < |plan.blocks| && Targeted(plan, retry, i) :: i in owner
    ensures Delivered(plan, retry, world, result, log)
  {
    forall k | 0 <= k < |log|
      ensures EndsTargetedBlock(plan, retry, world, log[k])
    {
      assert Targeted(plan, retry, owner[k]) && IsTerminal(plan, world, owner[k], log[k]);
    }
    forall j, k | 0 <= j < k < |log|
      ensures log[j].itemId != log[k].itemId
    {
      assert IsTerminal(plan, world, owner[j], log[j]) && IsTerminal(plan, world, owner[k], log[k]);
      if owner[j] < owner[k] {
        assert plan.blocks[owner[j]].itemId != plan.blocks[owner[k]].itemId;
      } else {
        assert owner[k] < owner[j];
        assert plan.blocks[owner[k]].itemId != plan.blocks[owner[j]].itemId;
      }
    }
    forall i | 0 <= i < |plan.blocks| && Targeted(plan, retry, i) && result.Finished?
      ensures exists k | 0 <= k < |log| :: IsTerminal(plan, world, i, log[k])
    {
      var k :| 0 <= k < |owner| && owner[k] == i;
      assert IsTerminal(plan, world, i, log[k]);
    }
  }

  /** With nothing left to send, every accumulator is complete. */
  lemma NothingLeftMeansComplete(plan: Plan, retry: seq<string>, world: World, next: seq<nat>,
                                 accs: seq<DocumentAccumulator>, owner: seq<nat>)
    requires plan.Valid() && Frontier(plan, next) && IsQueue(plan, next, [])
    requires Accounts(plan, retry, world, next, accs, owner) && Settled(accs)
    ensures forall i | 0 <= i < |accs| :: accs[i].published
    ensures |accs| == |plan.blocks|
    ensures forall i | 0 <= i < |plan.blocks| && Targeted(plan, retry, i) :: i in owner
  {
    forall i | 0 <= i < |accs|
      ensures accs[i].published
    {
      assert accs[i].Sound(plan, world, i, next[i]);
      if next[i] < |plan.Pieces(i)| {
        assert Unsent(plan, next, plan.Pieces(i)[next[i]]);
      }
      assert |accs[i].pieces.Keys| == |accs[i].pieces|;
    }
  }

  /** Where a run stands once some pieces have been sent: what remains, what the
      accumulators hold and which blocks have been ended. */
  ghost predicate Standing(plan: Plan, retry: seq<string>, world: World, accs: seq<DocumentAccumulator>,
                           remaining: seq<Piece>, sent: seq<Piece>, owner: seq<nat>)
    requires plan.Valid()
    reads accs
  {
    var next := FrontierAfter(plan, retry, sent);
    && IsQueue(plan, next, remaining) && Accounts(plan, retry, world, next, accs, owner) && Settled(accs)
    && SentInOrder(plan, retry, sent) && owner == Completions(plan, retry, world, sent)
  }

  /** A batch may start with a piece, or go on with it. */
  ghost predicate MayGo(plan: Plan, retry: seq<string>, sent: seq<Piece>, batch: seq<Piece>, k: nat)
    requires plan.Valid()
  {
    k < |batch| ==>
      var next := FrontierAfter(plan, retry, sent);
      batch[k].blockIndex < |next| && batch[k].pieceOrder == next[batch[k].blockIndex]
  }

  /** The first `k` pieces of a batch were sent under the focus it was taken by. */
  ghost predicate Undisturbed(world: World, selected: Focus, t0: nat, batch: seq<Piece>, k: nat) {
    && k <= |batch|
    && (forall c | t0 <= c < t0 + k :: Unmoved(world, selected, c))
    && (forall j | 0 <= j < k :: !Aborts(world, batch[j]))
  }

  lemma NotDisturbedYet(world: World, selected: Focus, t0: nat, batch: seq<Piece>)
    ensures Undisturbed(world, selected, t0, batch, 0)
  {
  }

  lemma StillUndisturbed(world: World, selected: Focus, t0: nat, batch: seq<Piece>, k: nat)
    requires k < |batch| && Undisturbed(world, selected, t0, batch, k)
    requires Unmoved(world, selected, t0 + k) && !Aborts(world, batch[k])
    ensures Undisturbed(world, selected, t0, batch, k + 1)
  {
  }

  /** How the sending of a batch ended after `count` pieces, and when. */
  ghost predicate BatchEnds(plan: Plan, retry: seq<string>, world: World, selected: Focus, t0: nat, batch: seq<Piece>,
                            sent0: seq<Piece>, failure: Option<RunError>, t: nat, sunk: bool, count: nat,
                            owner: seq<nat>)
    requires plan.Valid()
  {
    && count <= |batch| && Undisturbed(world, selected, t0, batch, count)
    && SentInOrder(plan, retry, sent0 + batch[..count])
    && var ended := Completions(plan, retry, world, sent0 + batch[..count]);
    match failure
    case None =>
      && owner == ended && t == t0 + count + (if count < |batch| then 1 else 0)
      && (count < |batch| ==> !Unmoved(world, selected, t0 + count))
    case Some(TranslationFailed) => owner == ended && count < |batch| && Aborts(world, batch[count])
    case Some(SinkFailed) => owner <= ended && sunk
    case Some(Cancelled) => false
  }

  /** Sends the pieces of one batch until it is done, fails, or focus moves;
      unsent pieces go back to the queue. `count` says how many were sent. */
  method SendBatch(plan: Plan, retry: seq<string>, world: World, contextPlan: seq<Span>, accs: seq<DocumentAccumulator>,
                   rest: seq<Piece>, batch: seq<Piece>, selected: Focus, t0: nat, log0: seq<Update>,
                   ghost sent0: seq<Piece>, ghost owner0: seq<nat>)
    returns (failure: Option<RunError>, remaining: seq<Piece>, t: nat, log: seq<Update>, ghost count: nat,
             ghost owner: seq<nat>)
    requires plan.Valid() && contextPlan == plan.ContextPlan()
    requires Standing(plan, retry, world, accs, rest + batch, sent0, owner0) && MayGo(plan, retry, sent0, batch, 0)
    requires forall k | 0 <= k < |batch| - 1 :: GoesOn(batch, k)
    requires LogSound(plan, retry, world, log0, owner0)
    modifies accs
    ensures LogSound(plan, retry, world, log, owner)
    ensures BatchEnds(plan, retry, world, selected, t0, batch, sent0, failure, t, SinkFails(world, |log|), count, owner)
    ensures failure.None? ==>
              && Standing(plan, retry, world, accs, remaining, sent0 + batch[..count], owner)
              && |remaining| == |rest| + |batch| - count
  {
    hide *;
    remaining, t, log, owner := rest, t0, log0, owner0;
    SendingStarts(plan, retry, world, accs, rest, batch, selected, t0, sent0, owner0);
    var k := 0;
    while k < |batch|
      invariant k <= |batch| && remaining == rest && t == t0 + k
      invariant OnTheWay(plan, retry, world, accs, rest, batch, k, selected, t0, sent0, owner)
      invariant LogSound(plan, retry, world, log, owner)
    {
      var current := world.focus(t);
      UnmovedExactly(world, selected, t);
      t := t + 1;
      if !current.active || current.visible != selected.visible {
        remaining := rest + batch[k..];
        SendingStops(plan, retry, world, accs, rest, batch, k, selected, t0, sent0, owner, SinkFails(world, |log|));
        return None, remaining, t, log, k, owner;
      }
      failure, log, count, owner :=
        SendFromBatch(plan, retry, world, contextPlan, accs, rest, batch, k, selected, t0, log, sent0, owner);
      if failure.Some? {
        return failure, remaining, t, log, count, owner;
      }
      k := k + 1;
    }
    SendingStops(plan, retry, world, accs, rest, batch, k, selected, t0, sent0, owner, SinkFails(world, |log|));
    assert rest + batch[k..] == rest;
    failure, count := None, k;
  }

  /** Where a run stands when `k` pieces of a batch have been sent. */
  ghost predicate OnTheWay(plan: Plan, retry: seq<string>, world: World, accs: seq<DocumentAccumulator>,
                           rest: seq<Piece>, batch: seq<Piece>, k: nat, selected: Focus, t0: nat, sent0: seq<Piece>,
                           owner: seq<nat>)
    requires plan.Valid() && k <= |batch|
    reads accs
  {
    && Standing(plan, retry, world, accs, rest + batch[k..], sent0 + batch[..k], owner)
    && MayGo(plan, retry, sent0 + batch[..k], batch, k)
    && Undisturbed(world, selected, t0, batch, k)
  }

  lemma UnmovedExactly(world: World, selected: Focus, clock: nat)
    ensures Unmoved(world, selected, clock) <==>
              world.focus(clock).active && world.focus(clock).visible == selected.visible
  {
  }

  lemma SendingStarts(plan: Plan, retry: seq<string>, world: World, accs: seq<DocumentAccumulator>, rest: seq<Piece>,
                      batch: seq<Piece>, selected: Focus, t0: nat, sent0: seq<Piece>, owner: seq<nat>)
    requires plan.Valid() && Standing(plan, retry, world, accs, rest + batch, sent0, owner)
    requires MayGo(plan, retry, sent0, batch, 0)
    ensures OnTheWay(plan, retry, world, accs, rest, batch, 0, selected, t0, sent0, owner)
  {
    hide Standing, MayGo;
    assert sent0 + batch[..0] == sent0 && batch[0..] == batch;
  }

  /** Sending stops because all is sent or the focus has moved. */
  lemma SendingStops(plan: Plan, retry: seq<string>, world: World, accs: seq<DocumentAccumulator>, rest: seq<Piece>,
                     batch: seq<Piece>, k: nat, selected: Focus, t0: nat, sent0: seq<Piece>, owner: seq<nat>,
                       sunk: bool)
    requires plan.Valid() && k <= |batch|
    requires OnTheWay(plan, retry, world, accs, rest, batch, k, selected, t0, sent0, owner)
    requires k < |batch| ==> !Unmoved(world, selected, t0 + k)
    ensures Standing(plan, retry, world, accs, rest + batch[k..], sent0 + batch[..k], owner)
    ensures BatchEnds(plan, retry, world, selected, t0, batch, sent0, None, t0 + k + (if k < |batch| then 1 else 0),
                      sunk, k, owner)
  {
    hide Accounts, Settled, IsQueue, SentInOrder, Completions, FrontierAfter, MayGo, Undisturbed, Unmoved;
  }

  /** The k-th piece of a batch. */
  method SendFromBatch(plan: Plan, retry: seq<string>, world: World, contextPlan: seq<Span>,
                       accs: seq<DocumentAccumulator>, rest: seq<Piece>, batch: seq<Piece>, k: nat, selected: Focus,
                       t0: nat, log0: seq<Update>, ghost sent0: seq<Piece>, ghost owner0: seq<nat>)
    returns (failure: Option<RunError>, log: seq<Update>, ghost count: nat, ghost owner: seq<nat>)
    requires plan.Valid() && contextPlan == plan.ContextPlan() && k < |batch|
    requires OnTheWay(plan, retry, world, accs, rest, batch, k, selected, t0, sent0, owner0)
    requires k + 1 < |batch| ==> GoesOn(batch, k)
    requires LogSound(plan, retry, world, log0, owner0) && Unmoved(world, selected, t0 + k)
    modifies accs
    ensures LogSound(plan, retry, world, log, owner)
    ensures failure.None? ==> OnTheWay(plan, retry, world, accs, rest, batch, k + 1, selected, t0, sent0, owner)
    ensures failure.Some? ==>
              BatchEnds(plan, retry, world, selected, t0, batch, sent0, failure, t0 + k + 1, SinkFails(world, |log|),
                        count, owner)
  {
    hide *;
    ghost var sent, piece := sent0 + batch[..k], batch[k];
    OnTheWayFacts(plan, retry, world, accs, rest, batch, k, selected, t0, sent0, owner0);
    NextOnTheWay(plan, retry, world, rest, batch, k, selected, t0, sent0);
    failure, log, owner := SendPiece(plan, retry, world, contextPlan, accs, batch[k], log0, sent, owner0);
    if failure.None? {
      GoneOnTheWay(plan, retry, world, accs, rest, batch, k, selected, t0, sent0, owner);
    } else {
      FailedOnTheWay(plan, retry, world, batch, k, selected, t0, sent0, failure, SinkFails(world, |log|), owner);
    }
    count := if failure == Some(SinkFailed) then k + 1 else k;
  }

  lemma OnTheWayFacts(plan: Plan, retry: seq<string>, world: World, accs: seq<DocumentAccumulator>, rest: seq<Piece>,
                      batch: seq<Piece>, k: nat, selected: Focus, t0: nat, sent0: seq<Piece>, owner: seq<nat>)
    requires plan.Valid() && k <= |batch|
    requires OnTheWay(plan, retry, world, accs, rest, batch, k, selected, t0, sent0, owner)
    ensures var sent := sent0 + batch[..k];
            var next := FrontierAfter(plan, retry, sent);
            && IsQueue(plan, next, rest + batch[k..]) && Frontier(plan, next)
            && Accounts(plan, retry, world, next, accs, owner) && Settled(accs)
            && SentInOrder(plan, retry, sent) && owner == Completions(plan, retry, world, sent)
            && (k < |batch| ==> batch[k].blockIndex < |next| && batch[k].pieceOrder == next[batch[k].blockIndex])
    ensures Undisturbed(world, selected, t0, batch, k)
  {
    hide Accounts, Settled, SentInOrder, Completions, FrontierAfter, Undisturbed, Unsent;
  }

  /** The piece to be sent is in order, and so is what is left behind it. */
  lemma NextOnTheWay(plan: Plan, retry: seq<string>, world: World, rest: seq<Piece>, batch: seq<Piece>, k: nat,
                     selected: Focus, t0: nat, sent0: seq<Piece>)
    requires plan.Valid() && k < |batch| && SentInOrder(plan, retry, sent0 + batch[..k])
    requires var next := FrontierAfter(plan, retry, sent0 + batch[..k]);
             && IsQueue(plan, next, rest + batch[k..])
             && batch[k].blockIndex < |next| && batch[k].pieceOrder == next[batch[k].blockIndex]
    requires k + 1 < |batch| ==> GoesOn(batch, k)
    ensures plan.Planned(batch[k]) && Targeted(plan, retry, batch[k].blockIndex)
    ensures sent0 + batch[..k + 1] == sent0 + batch[..k] + [batch[k]]
    ensures SentInOrder(plan, retry, sent0 + batch[..k + 1])
    ensures var next := FrontierAfter(plan, retry, sent0 + batch[..k + 1]);
            && IsQueue(plan, next, rest + batch[k + 1..]) && MayGo(plan, retry, sent0 + batch[..k + 1], batch, k + 1)
  {
    hide SentInOrder, FrontierAfter, OfBlock, BlockPieces, IsQueue;
    var sent, piece := sent0 + batch[..k], batch[k];
    assert sent0 + batch[..k + 1] == sent + [piece];
    HeadSent(plan, FrontierAfter(plan, retry, sent), rest, batch, k);
    FrontierNext(plan, retry, sent, piece);
    SentNext(plan, retry, sent, piece);
  }

  lemma GoneOnTheWay(plan: Plan, retry: seq<string>, world: World, accs: seq<DocumentAccumulator>, rest: seq<Piece>,
                     batch: seq<Piece>, k: nat, selected: Focus, t0: nat, sent0: seq<Piece>, owner: seq<nat>)
    requires plan.Valid() && k < |batch| && MayGo(plan, retry, sent0 + batch[..k + 1], batch, k + 1)
    requires var sent := sent0 + batch[..k + 1];
             var next := FrontierAfter(plan, retry, sent);
             && IsQueue(plan, next, rest + batch[k + 1..]) && Frontier(plan, next)
             && Accounts(plan, retry, world, next, accs, owner) && Settled(accs)
             && SentInOrder(plan, retry, sent) && owner == Completions(plan, retry, world, sent)
    requires Undisturbed(world, selected, t0, batch, k) && Unmoved(world, selected, t0 + k) && !Aborts(world, batch[k])
    ensures OnTheWay(plan, retry, world, accs, rest, batch, k + 1, selected, t0, sent0, owner)
  {
    hide Accounts, Settled, SentInOrder, Completions, FrontierAfter, IsQueue, MayGo, Unmoved, Aborts;
    StillUndisturbed(world, selected, t0, batch, k);
    hide Undisturbed;
  }

  lemma FailedOnTheWay(plan: Plan, retry: seq<string>, world: World, batch: seq<Piece>, k: nat, selected: Focus,
                       t0: nat,
                       sent0: seq<Piece>, failure: Option<RunError>, sunk: bool, owner: seq<nat>)
    requires plan.Valid() && k < |batch| && failure.Some?
    requires SentInOrder(plan, retry, sent0 + batch[..k]) && SentInOrder(plan, retry, sent0 + batch[..k + 1])
    requires Undisturbed(world, selected, t0, batch, k) && Unmoved(world, selected, t0 + k)
    requires failure == Some(TranslationFailed) <==> Aborts(world, batch[k])
    requires failure == Some(TranslationFailed) ==> owner == Completions(plan, retry, world, sent0 + batch[..k])
    requires failure != Some(TranslationFailed) ==>
               failure == Some(SinkFailed) && sunk && owner <= Completions(plan, retry, world, sent0 + batch[..k + 1])
    ensures BatchEnds(plan, retry, world, selected, t0, batch, sent0, failure, t0 + k + 1, sunk,
                      if failure == Some(SinkFailed) then k + 1 else k, owner)
  {
    hide SentInOrder, Completions, Unmoved, Aborts;
    if failure == Some(SinkFailed) {
      StillUndisturbed(world, selected, t0, batch, k);
    }
    hide Undisturbed;
  }

  /** Translates one piece in its context and publishes what became complete. */
  method SendPiece(plan: Plan, retry: seq<string>, world: World, contextPlan: seq<Span>, accs: seq<DocumentAccumulator>,
                   piece: Piece, log0: seq<Update>, ghost sent: seq<Piece>, ghost owner0: seq<nat>)
    returns (failure: Option<RunError>, log: seq<Update>, ghost owner: seq<nat>)
    requires plan.Valid() && contextPlan == plan.ContextPlan() && plan.Planned(piece)
    requires Targeted(plan, retry, piece.blockIndex)
    requires var next := FrontierAfter(plan, retry, sent);
             && Frontier(plan, next) && piece.pieceOrder == next[piece.blockIndex]
             && Accounts(plan, retry, world, next, accs, owner0)
    requires LogSound(plan, retry, world, log0, owner0) && Settled(accs)
    requires owner0 == Completions(plan, retry, world, sent)
    modifies accs
    ensures LogSound(plan, retry, world, log, owner)
    ensures failure == Some(TranslationFailed) <==> Aborts(world, piece)
    ensures failure == Some(TranslationFailed) ==> owner == owner0
    ensures failure.Some? ==>
              failure.value.TranslationFailed?
              || (failure.value.SinkFailed? && SinkFails(world, |log|)
                  && owner <= Completions(plan, retry, world, sent + [piece]))
    ensures var next := FrontierAfter(plan, retry, sent + [piece]);
            && Frontier(plan, next)
            && (failure.None? ==>
                  && Accounts(plan, retry, world, next, accs, owner) && Settled(accs)
                  && owner == Completions(plan, retry, world, sent + [piece]))
  {
    hide Accounts, LogSound, Settled, Completions, FrontierAfter, CompleteAfter, Due;
    log, owner := log0, owner0;
    ghost var next := FrontierAfter(plan, retry, sent);
    forall i | 0 <= i < |plan.blocks| && Targeted(plan, retry, i)
      ensures i in owner0 <==> CompleteAfter(plan, world, i, next[i])
    {
      SettledMeans(plan, retry, world, next, accs, owner0, i);
    }
    PassAfterPiece(plan, retry, world, sent, piece, owner0);
    FrontierNext(plan, retry, sent, piece);
    PieceHasContext(plan, piece);
    var context := DocumentPieceNeighborContext(contextPlan, [piece.pieceId]);
    if context.None? {
      assert false;
    }
    var ok := DeliverPiece(plan, retry, world, piece, accs, next, owner);
    if !ok {
      return Some(TranslationFailed), log, owner;
    }
    ok, log, owner :=
      PublishReadyDocumentBlocks(plan, retry, world, accs, log, FrontierAfter(plan, retry, sent + [piece]), owner);
    if !ok {
      return Some(SinkFailed), log, owner;
    }
    failure := None;
  }

  /** The context builder never rejects a piece of the plan. */
  lemma PieceHasContext(plan: Plan, piece: Piece)
    requires plan.Valid() && plan.Planned(piece)
    ensures exists first: nat :: FillsWindow(plan.ContextPlan(), Ids([piece.pieceId]), first, |[piece.pieceId]|)
  {
    ConsecutivePiecesFillWindow(plan, [piece], Place(plan, piece));
    assert IdsOf([piece]) == Ids([piece.pieceId]);
  }

  method DeliverPiece(plan: Plan, retry: seq<string>, world: World, piece: Piece, accs: seq<DocumentAccumulator>,
                      ghost next: seq<nat>, ghost owner: seq<nat>) returns (ok: bool)
    requires plan.Valid() && Frontier(plan, next) && plan.Planned(piece) && piece.pieceOrder == next[piece.blockIndex]
    requires Accounts(plan, retry, world, next, accs, owner)
    modifies accs
    ensures ok <==> !Aborts(world, piece)
    ensures var next' := next[piece.blockIndex := next[piece.blockIndex] + 1];
            Frontier(plan, next') && (ok ==> Accounts(plan, retry, world, next', accs, owner))
  {
    hide DocumentAccumulator.Sound;
    if CompleteAfter(plan, world, piece.blockIndex, next[piece.blockIndex]) {
      CompleteStands(plan, world, piece.blockIndex, next[piece.blockIndex]);
    }
    hide CompleteAfter;
    ok := Deliver(plan, world, piece, accs[piece.blockIndex]);
  }

  lemma CompleteStands(plan: Plan, world: World, i: nat, n: nat)
    requires plan.Valid() && i < |plan.blocks| && n < |plan.Pieces(i)| && CompleteAfter(plan, world, i, n)
    ensures CompleteAfter(plan, world, i, n + 1)
  {
    RejectionNext(plan, world, i, n);
  }

  lemma EmptyLog(plan: Plan, retry: seq<string>, world: World)
    requires plan.Valid()
    ensures LogSound(plan, retry, world, [], [])
  {
  }

  lemma BatchReady(plan: Plan, next: seq<nat>, remaining: seq<Piece>, itemIds: seq<string>, visible: set<string>,
                   isolate: bool, start: nat, priority: Option<nat>, batch: seq<Piece>, rest: seq<Piece>)
    requires IsQueue(plan, next, remaining) && remaining != [] && batch != []
    requires forall p | p in Sort(remaining, KeyAtMost) :: p.blockIndex < |itemIds|
    requires var ordered := Sort(remaining, KeyAtMost);
             && IsBatch(ordered, start, batch, itemIds, visible, isolate, priority)
             && (if priority.Some?
                 then start < |ordered| && ordered[start].blockIndex == priority.value
                      && forall i | 0 <= i < start :: ordered[i].blockIndex != priority.value
                 else start == 0)
             && (DistinctIds(ordered) ==> rest == ordered[..start] + ordered[start + |batch|..])
    ensures IsQueue(plan, next, rest + batch) && |rest| + |batch| == |remaining|
    ensures batch[0].blockIndex < |next| && batch[0].pieceOrder == next[batch[0].blockIndex]
  {
    SortedQueue(plan, next, remaining);
    hide IsQueue, Sort, IsBatch, KeyAtMost, DistinctIds;
    SortElements(remaining, KeyAtMost);
    OrderedBatchReady(plan, next, Sort(remaining, KeyAtMost), itemIds, visible, isolate, start, priority, batch, rest);
  }

  lemma OrderedBatchReady(plan: Plan, next: seq<nat>, ordered: seq<Piece>, itemIds: seq<string>, visible: set<string>,
                          isolate: bool, start: nat, priority: Option<nat>, batch: seq<Piece>, rest: seq<Piece>)
    requires IsQueue(plan, next, ordered) && batch != []
    requires forall i, j | 0 <= i < j < |ordered| ::
               KeyAtMost(ordered[i], ordered[j]) && !KeyAtMost(ordered[j], ordered[i])
    requires forall p | p in ordered :: p.blockIndex < |itemIds|
    requires IsBatch(ordered, start, batch, itemIds, visible, isolate, priority)
    requires if priority.Some?
             then start < |ordered| && ordered[start].blockIndex == priority.value
                  && forall i | 0 <= i < start :: ordered[i].blockIndex != priority.value
             else start == 0
    requires rest == ordered[..start] + ordered[start + |batch|..]
    ensures IsQueue(plan, next, rest + batch) && |rest| + |batch| == |ordered|
    ensures batch[0].blockIndex < |next| && batch[0].pieceOrder == next[batch[0].blockIndex]
  {
    hide IsQueue, MayJoin, AllMayJoin, Follows, KeyAtMost;
    BatchTaken(plan, next, ordered, start, batch, rest);
  }

  // ---- One dispatch ----

  /** A started run between dispatches. */
  ghost predicate Running(plan: Plan, retry: seq<string>, world: World, accs: seq<DocumentAccumulator>,
                          remaining: seq<Piece>, log: seq<Update>, dispatches: seq<Dispatch>, owner: seq<nat>, t: nat)
    reads accs
  {
    && plan.Valid() && Scheduled(plan, retry, world, dispatches)
    && Standing(plan, retry, world, accs, remaining, SentBy(dispatches), owner)
    && LogSound(plan, retry, world, log, owner)
    && t == LastEnd(dispatches) && LastIsDone(world, dispatches)
  }

  /** Selected by the first active focus since a reading, before any cancellation. */
  ghost predicate SelectedAt(world: World, selected: Focus, from: nat, clock: nat) {
    && from <= clock && selected == world.focus(clock) && selected.active
    && (forall c | from <= c < clock :: !world.focus(c).active)
    && (forall c | from <= c <= clock :: !world.cancelled(c))
  }

  /** Takes the next batch for a selected focus. */
  method TakeBatch(plan: Plan, retry: seq<string>, world: World, ghost accs: seq<DocumentAccumulator>,
                   remaining: seq<Piece>, selected: Focus, alone: bool, ghost sent: seq<Piece>, ghost owner: seq<nat>)
    returns (batch: seq<Piece>, rest: seq<Piece>)
    requires plan.Valid() && remaining != [] && Standing(plan, retry, world, accs, remaining, sent, owner)
    ensures Standing(plan, retry, world, accs, rest + batch, sent, owner) && MayGo(plan, retry, sent, batch, 0)
    ensures RightBatch(plan, FrontierAfter(plan, retry, sent), selected, batch, alone)
    ensures batch != [] && |rest| + |batch| == |remaining|
    ensures forall k | 0 <= k < |batch| - 1 :: GoesOn(batch, k)
  {
    hide Accounts, Settled, SentInOrder, Completions, FrontierAfter, IsQueue, IsBatch, Sort, IsPriority, HasPieceOf,
         TokenTotal, DistinctIds, RightStart, RightEnd, RightMembers, KeyAtMost, GoesOn;
    ghost var next := FrontierAfter(plan, retry, sent);
    var visible := set id | id in selected.visible;
    QueuedArePlanned(plan, next, remaining);
    var reason;
    ghost var start, priority;
    batch, rest, reason, start, priority := TakeNextDocumentBatch(remaining, plan.ItemIds(), visible, alone);
    TakenIsRight(plan, next, remaining, selected, visible, start, batch, alone, priority);
    BatchReady(plan, next, remaining, plan.ItemIds(), visible, alone, start, priority, batch, rest);
    RightBatchGoesOn(plan, next, selected, batch, alone);
  }

  lemma RightBatchGoesOn(plan: Plan, frontier: seq<nat>, focus: Focus, batch: seq<Piece>, alone: bool)
    requires RightBatch(plan, frontier, focus, batch, alone)
    ensures forall k | 0 <= k < |batch| - 1 :: GoesOn(batch, k)
  {
    hide GoesOn, RightStart, RightEnd, RightMember;
  }

  /** A batch taken and sent goes on record. */
  lemma BatchIsRecorded(plan: Plan, retry: seq<string>, world: World, dispatches: seq<Dispatch>, selected: Focus,
                        from: nat, d: Dispatch, failure: Option<RunError>, t: nat, sunk: bool, owner: seq<nat>)
    requires plan.Valid() && Scheduled(plan, retry, world, dispatches)
    requires from == LastEnd(dispatches) && LastIsDone(world, dispatches)
    requires d.frontier == FrontierAfter(plan, retry, SentBy(dispatches))
    requires RightBatch(plan, d.frontier, selected, d.batch, dispatches == [])
    requires SelectedAt(world, selected, from, d.clock)
    requires BatchEnds(plan, retry, world, selected, d.clock + 1, d.batch, SentBy(dispatches), failure, t, sunk,
                       d.sent, owner)
    ensures d.sent <= |d.batch| && SentBy(dispatches + [d]) == SentBy(dispatches) + d.batch[..d.sent]
    ensures Scheduled(plan, retry, world, dispatches + [d])
    ensures failure.None? ==> t == LastEnd(dispatches + [d]) && LastIsDone(world, dispatches + [d])
    ensures failure.None? && d.sent == 0 ==> t == d.clock + 2 && !Unmoved(world, selected, d.clock + 1)
    ensures failure == Some(TranslationFailed) ==> LastAborted(world, dispatches + [d])
    ensures failure == Some(SinkFailed) ==> sunk
    ensures failure != Some(Cancelled)
    ensures var ended := Completions(plan, retry, world, SentBy(dispatches + [d]));
            owner <= ended && (failure != Some(SinkFailed) ==> owner == ended)
  {
    hide SentInOrder, FrontierAfter, Completions, Scheduled, FocusMoved, SentBy, RightBatch, RightTime, Undisturbed,
         Unmoved, Aborts, SelectedAt, LastIsDone, LastAborted, LastEnd, OfBlock, Targeted;
    NeverEmpty(plan, d.frontier, selected, d.batch, dispatches == []);
    SentInTime(world, selected, from, d);
    ScheduledNext(plan, retry, world, dispatches, d);
  }

  lemma NeverEmpty(plan: Plan, frontier: seq<nat>, focus: Focus, batch: seq<Piece>, alone: bool)
    requires RightBatch(plan, frontier, focus, batch, alone)
    ensures batch != [] && |plan.splits| == |plan.blocks| == |frontier|
  {
  }

  /** What is selected so and sent undisturbed is sent in time. */
  lemma SentInTime(world: World, selected: Focus, from: nat, d: Dispatch)
    requires SelectedAt(world, selected, from, d.clock)
    requires Undisturbed(world, selected, d.clock + 1, d.batch, d.sent)
    ensures RightTime(world, from, d) && d.sent <= |d.batch| && selected == world.focus(d.clock)
    ensures FocusMoved(world, d) <==> !Unmoved(world, selected, d.clock + 1 + d.sent)
  {
  }

  /** Takes a batch for the selected focus and sends it. */
  method DispatchBatch(plan: Plan, retry: seq<string>, world: World, contextPlan: seq<Span>,
                       accs: seq<DocumentAccumulator>, remaining0: seq<Piece>, selected: Focus, t0: nat, first: bool,
                       log0: seq<Update>, ghost from: nat, ghost dispatches0: seq<Dispatch>, ghost owner0: seq<nat>)
    returns (failure: Option<RunError>, remaining: seq<Piece>, t: nat, log: seq<Update>,
             ghost dispatches: seq<Dispatch>, ghost owner: seq<nat>)
    requires plan.Valid() && contextPlan == plan.ContextPlan() && remaining0 != [] && t0 > 0
    requires Running(plan, retry, world, accs, remaining0, log0, dispatches0, owner0, from)
    requires SelectedAt(world, selected, from, t0 - 1) && (first <==> dispatches0 == [])
    modifies accs
    ensures failure.None? ==>
              && Running(plan, retry, world, accs, remaining, log, dispatches, owner, t) && t > t0
              && |remaining| <= |remaining0|
              && (|remaining| == |remaining0| ==> t == t0 + 1 && !Unmoved(world, selected, t0))
    ensures failure.Some? ==> FailsWith(plan, retry, world, failure.value, log, dispatches, owner)
    ensures dispatches != []
  {
    hide Standing, MayGo, LogSound, Scheduled, LastIsDone, SelectedAt, BatchEnds, RightBatch, GoesOn, Unmoved,
         LastEnd, SentBy, Completions, FrontierAfter, LastAborted;
    ghost var sent := SentBy(dispatches0);
    var batch, rest := TakeBatch(plan, retry, world, accs, remaining0, selected, first, sent, owner0);
    ghost var count;
    failure, remaining, t, log, count, owner :=
      SendBatch(plan, retry, world, contextPlan, accs, rest, batch, selected, t0, log0, sent, owner0);
    ghost var d := Dispatch(t0 - 1, FrontierAfter(plan, retry, sent), batch, count);
    BatchIsRecorded(plan, retry, world, dispatches0, selected, from, d, failure, t, SinkFails(world, |log|), owner);
    EndsLater(plan, retry, world, selected, t0, batch, sent, failure, t, SinkFails(world, |log|), count, owner);
    dispatches := dispatches0 + [d];
  }

  lemma EndsLater(plan: Plan, retry: seq<string>, world: World, selected: Focus, t0: nat, batch: seq<Piece>,
                  sent0: seq<Piece>, failure: Option<RunError>, t: nat, sunk: bool, count: nat, owner: seq<nat>)
    requires plan.Valid() && batch != []
    requires BatchEnds(plan, retry, world, selected, t0, batch, sent0, failure, t, sunk, count, owner)
    ensures failure.None? ==> t > t0 && count <= |batch|
  {
  }

  /** What is known when a dispatch failed. */
  ghost predicate FailsWith(plan: Plan, retry: seq<string>, world: World, failure: RunError, log: seq<Update>,
                            dispatches: seq<Dispatch>, owner: seq<nat>)
  {
    && plan.Valid() && LogSound(plan, retry, world, log, owner) && Scheduled(plan, retry, world, dispatches)
    && var ended := Completions(plan, retry, world, SentBy(dispatches));
    match failure
    case TranslationFailed => owner == ended && LastAborted(world, dispatches)
    case SinkFailed => owner <= ended && SinkFails(world, |log|)
    case Cancelled => false
  }

  /** A document run, watched up to `horizon` readings of the focus and as long
      as it makes progress after that. With a horizon as long as the run this is
      the whole run; and a run whose focus settles, or that is cancelled, ends,
      as either the clock comes closer to the horizon or a piece is sent for good.
      `dispatches` records what was taken from the queue, when, and how far it
      was sent. */
  method Run(plan: Plan, retry: seq<string>, world: World, horizon: nat)
    returns (result: RunResult, log: seq<Update>, ghost dispatches: seq<Dispatch>)
    requires plan.Valid()
    ensures Delivered(plan, retry, world, result, log)
    ensures Scheduled(plan, retry, world, dispatches)
    ensures EndsInOrder(plan, retry, world, result, log, dispatches)
    ensures Settles(world, horizon) ==> !result.StillRunning?
  {
    hide Accounts, Settled, LogSound, IsQueue, Delivered, Scheduled, EndsInOrder, FrontierAfter, Completions, Due,
         Standing, SelectedAt, FailsWith, SentInOrder, Unmoved, LastIsDone, LastEnd, Frontier;
    dispatches := [];
    NothingRecorded(plan, retry, world);
    if world.cancelled(0) {
      CancelledBeforeStart(plan, retry, world);
      return Failed(Cancelled), [], dispatches;
    }
    var ok, remaining, contextPlan, accs;
    ghost var owner;
    ok, remaining, contextPlan, accs, log, owner := StartRun(plan, retry, world);
    if !ok {
      RunFails(plan, retry, world, SinkFailed, log, owner, dispatches);
      return Failed(SinkFailed), log, dispatches;
    }
    var t, firstDispatch := 1, true;
    while remaining != []
      invariant fresh(accs)
      invariant Running(plan, retry, world, accs, remaining, log, dispatches, owner, t)
      invariant firstDispatch <==> dispatches == []
      decreases if t <= horizon then horizon + 1 - t else 0, |remaining|
    {
      var late, size := t > horizon, |remaining|;
      ghost var from := t;
      var waited;
      waited, t := WaitForActiveDocument(world, t, horizon);
      if !waited.Active? {
        result := if waited.Stopped? then Failed(Cancelled) else StillRunning;
        assert waited.Stopped? ==> CancelledWhileWaiting(world, from);
        RunStops(plan, retry, world, accs, remaining, result, log, dispatches, owner, from);
        return result, log, dispatches;
      }
      WaitedIsSelected(world, waited.focus, from, t - 1);
      MovedUnsettles(world, waited.focus, horizon, t);
      var failure;
      failure, remaining, t, log, dispatches, owner :=
        DispatchBatch(plan, retry, world, contextPlan, accs, remaining, waited.focus, t, firstDispatch, log, from,
                      dispatches, owner);
      firstDispatch := false;
      if failure.Some? {
        RunFails(plan, retry, world, failure.value, log, owner, dispatches);
        return Failed(failure.value), log, dispatches;
      }
      if late && |remaining| >= size {
        result := if world.cancelled(t) then Failed(Cancelled) else StillRunning;
        assert world.cancelled(t) ==> CancelledWhileWaiting(world, t);
        RunStops(plan, retry, world, accs, remaining, result, log, dispatches, owner, t);
        return result, log, dispatches;
      }
    }
    ok, log, owner := FinalSweep(plan, retry, world, accs, log, dispatches, owner, t);
    result := if ok then Finished else Failed(SinkFailed);
  }

  // ---- Steps of the record ----

  lemma CancelledBeforeStart(plan: Plan, retry: seq<string>, world: World)
    requires plan.Valid() && world.cancelled(0)
    ensures Delivered(plan, retry, world, Failed(Cancelled), [])
    ensures EndsInOrder(plan, retry, world, Failed(Cancelled), [], [])
  {
    EmptyLog(plan, retry, world);
    SoundLogIsDelivered(plan, retry, world, Failed(Cancelled), [], []);
  }

  /** Before the first dispatch the pass ends what is complete from the start. */
  lemma StartOfRun(plan: Plan, retry: seq<string>, world: World, next: seq<nat>)
    requires plan.Valid() && |next| == |plan.blocks|
    requires forall i | 0 <= i < |next| :: next[i] == if Targeted(plan, retry, i) then 0 else |plan.Pieces(i)|
    ensures next == FrontierAfter(plan, retry, [])
    ensures Completions(plan, retry, world, []) == [] + Due(plan, retry, world, next, [], |plan.blocks|)
  {
    assert forall i | 0 <= i < |next| :: OfBlock([], i) == [];
  }

  /** Plans the run and ends what is complete from the start. */
  method StartRun(plan: Plan, retry: seq<string>, world: World)
    returns (ok: bool, remaining: seq<Piece>, contextPlan: seq<Span>, accs: seq<DocumentAccumulator>, log: seq<Update>,
             ghost owner: seq<nat>)
    requires plan.Valid()
    ensures contextPlan == plan.ContextPlan() && fresh(accs)
    ensures ok ==> Running(plan, retry, world, accs, remaining, log, [], owner, 1)
    ensures !ok ==> FailsWith(plan, retry, world, SinkFailed, log, [], owner)
  {
    hide Accounts, Settled, LogSound, IsQueue, Frontier, Completions, Due, OfBlock, SentInOrder, Scheduled, LastIsDone,
         LastEnd, SentBy;
    NothingRecorded(plan, retry, world);
    EmptyLog(plan, retry, world);
    ghost var next;
    remaining, contextPlan, next := PlanDocument(plan, retry);
    accs := OpenAccumulators(plan, retry, world, next);
    StartOfRun(plan, retry, world, next);
    hide FrontierAfter;
    ok, log, owner := PublishReadyDocumentBlocks(plan, retry, world, accs, [], next, []);
  }

  /** With everything sent, the last sweep finds nothing to reject or to end. */
  method FinalSweep(plan: Plan, retry: seq<string>, world: World, accs: seq<DocumentAccumulator>, log0: seq<Update>,
                    ghost dispatches: seq<Dispatch>, ghost owner0: seq<nat>, ghost t: nat)
    returns (ok: bool, log: seq<Update>, ghost owner: seq<nat>)
    requires Running(plan, retry, world, accs, [], log0, dispatches, owner0, t) && !world.cancelled(0)
    modifies accs
    ensures var result := if ok then Finished else Failed(SinkFailed);
            && Delivered(plan, retry, world, result, log)
            && EndsInOrder(plan, retry, world, result, log, dispatches)
  {
    hide Accounts, Settled, LogSound, IsQueue, Completions, Due, OfBlock, Scheduled, LastIsDone, Delivered,
         EndsInOrder, SentBy, FrontierAfter, Targeted;
    ghost var next := FrontierAfter(plan, retry, SentBy(dispatches));
    assert Frontier(plan, next) by { QueuedOnFrontier(plan, next, []); }
    EverythingSent(plan, retry, SentBy(dispatches));
    NothingLeftMeansComplete(plan, retry, world, next, accs, owner0);
    hide Frontier;
    for i := 0 to |accs|
    {
      var published, complete := accs[i].published, accs[i].IsComplete();
      if !published && !complete {
        assert false;
      }
    }
    NothingIsDue(plan, retry, world, next, accs, owner0);
    ok, log, owner := PublishReadyDocumentBlocks(plan, retry, world, accs, log0, next, owner0);
    var result := if ok then Finished else Failed(SinkFailed);
    if ok {
      NothingLeftMeansComplete(plan, retry, world, next, accs, owner);
    }
    RunIsOver(plan, retry, world, result, log, owner, dispatches);
  }

  lemma QueuedOnFrontier(plan: Plan, next: seq<nat>, queue: seq<Piece>)
    requires IsQueue(plan, next, queue)
    ensures plan.Valid() && Frontier(plan, next)
  {
  }

  lemma WaitedIsSelected(world: World, selected: Focus, from: nat, clock: nat)
    requires from <= clock && selected == world.focus(clock) && selected.active
    requires forall c | from <= c < clock :: !world.focus(c).active
    requires forall c | from <= c <= clock :: !world.cancelled(c)
    ensures SelectedAt(world, selected, from, clock)
  {
  }

  /** Focus that moves after the horizon has not settled, nor stays a job
      cancelled that was not when its batch was selected. */
  lemma MovedUnsettles(world: World, selected: Focus, horizon: nat, t: nat)
    requires t > 0 && selected == world.focus(t - 1) && !world.cancelled(t - 1)
    ensures t > horizon && !Unmoved(world, selected, t) ==> !Settles(world, horizon)
  {
  }

  lemma RunFails(plan: Plan, retry: seq<string>, world: World, failure: RunError, log: seq<Update>, owner: seq<nat>,
                 dispatches: seq<Dispatch>)
    requires FailsWith(plan, retry, world, failure, log, dispatches, owner) && !world.cancelled(0)
    ensures Delivered(plan, retry, world, Failed(failure), log) && Scheduled(plan, retry, world, dispatches)
    ensures EndsInOrder(plan, retry, world, Failed(failure), log, dispatches)
  {
    hide Delivered, EndsInOrder, LogSound, Scheduled, Completions, SentBy;
    RunIsOver(plan, retry, world, Failed(failure), log, owner, dispatches);
  }

  lemma RunStops(plan: Plan, retry: seq<string>, world: World, accs: seq<DocumentAccumulator>, remaining: seq<Piece>,
                 result: RunResult, log: seq<Update>, dispatches: seq<Dispatch>, owner: seq<nat>, t: nat)
    requires Running(plan, retry, world, accs, remaining, log, dispatches, owner, t) && !world.cancelled(0)
    requires result.StillRunning? || (result == Failed(Cancelled) && CancelledWhileWaiting(world, t))
    ensures Delivered(plan, retry, world, result, log) && Scheduled(plan, retry, world, dispatches)
    ensures EndsInOrder(plan, retry, world, result, log, dispatches)
  {
    hide Delivered, EndsInOrder, LogSound, Scheduled, Completions, SentBy, Accounts, Settled, IsQueue, FrontierAfter,
         LastIsDone, CancelledWhileWaiting;
    RunIsOver(plan, retry, world, result, log, owner, dispatches);
  }

  lemma NothingIsDue(plan: Plan, retry: seq<string>, world: World, next: seq<nat>, accs: seq<DocumentAccumulator>,
                     owner: seq<nat>)
    requires plan.Valid() && Frontier(plan, next)
    requires Accounts(plan, retry, world, next, accs, owner) && Settled(accs)
    ensures owner + Due(plan, retry, world, next, owner, |plan.blocks|) == owner
  {
    forall i | 0 <= i < |plan.blocks|
      ensures !IsDue(plan, retry, world, next, owner, i)
    {
      if Targeted(plan, retry, i) {
        SettledMeans(plan, retry, world, next, accs, owner, i);
      }
    }
    var due := Due(plan, retry, world, next, owner, |plan.blocks|);
    SomeElement(due);
  }

  /** However a started run is over, its log and its record agree. */
  lemma RunIsOver(plan: Plan, retry: seq<string>, world: World, result: RunResult, log: seq<Update>, owner: seq<nat>,
                  dispatches: seq<Dispatch>)
    requires plan.Valid() && LogSound(plan, retry, world, log, owner) && !world.cancelled(0)
    requires Scheduled(plan, retry, world, dispatches)
    requires var ended := Completions(plan, retry, world, SentBy(dispatches));
             owner <= ended && (result != Failed(SinkFailed) ==> owner == ended)
    requires result.Finished? ==>
               && (forall b | 0 <= b < |plan.blocks| && Targeted(plan, retry, b) ::
                     OfBlock(SentBy(dispatches), b) == plan.Pieces(b))
               && (forall i | 0 <= i < |plan.blocks| && Targeted(plan, retry, i) :: i in owner)
    requires match result
             case Failed(TranslationFailed) => LastAborted(world, dispatches)
             case Failed(SinkFailed) => SinkFails(world, |log|)
             case Failed(Cancelled) => LastIsDone(world, dispatches)
               && CancelledWhileWaiting(world, LastEnd(dispatches))
             case _ => LastIsDone(world, dispatches)
    ensures Delivered(plan, retry, world, result, log)
    ensures EndsInOrder(plan, retry, world, result, log, dispatches)
  {
    SoundLogIsDelivered(plan, retry, world, result, log, owner);
    hide LogSound, Completions, Delivered, OfBlock, SentBy, LastIsDone, LastAborted, BlockIds, LogIds;
    LogFollowsOwners(plan, retry, world, log, owner, Completions(plan, retry, world, SentBy(dispatches)));
  }

  // ---- What a terminal update says ----

  /** A block is shown translated exactly when every piece was translated and
      the joined text passed; then its text is its own pieces' translations and
      separators in order, however the run was scheduled. */
  lemma ReadyExactlyWhenAllPiecesPass(plan: Plan, world: World, i: nat, update: Update, parts: seq<Part>)
    requires plan.Valid() && i < |plan.blocks| && IsTerminal(plan, world, i, update)
    requires |parts| == |plan.Pieces(i)|
    requires forall o | 0 <= o < |parts| && world.translate(plan.Pieces(i)[o]).Translated? ::
               PieceTranslated(world, plan.Pieces(i)[o], parts[o])
    ensures update.Ready? <==>
            && plan.splits[i].Fragments?
            && (forall p | p in plan.Pieces(i) :: world.translate(p).Translated?)
            && !world.judge(plan.blocks[i].itemId, Join(parts).displayed).requiresRepair
    ensures update.Ready? ==>
              && update.base == Join(parts).base
              && update.displayed == world.judge(plan.blocks[i].itemId, Join(parts).displayed).normalized
  {
    hide BlockPieces, Join, PieceTranslated, RejectionAfter;
    var pieces := plan.Pieces(i);
    var rejected := update.Preserved? && RejectionAfter(plan, world, i, |pieces|) == Some(update.reason);
    if rejected {
      RejectedHasFailed(plan, world, i, update.reason);
    } else {
      var own: seq<Part> :| |own| == |pieces|
        && (forall o | 0 <= o < |own| :: PieceTranslated(world, pieces[o], own[o]))
        && update == JoinedUpdate(world, plan.blocks[i], own);
      SameParts(world, pieces, own, parts);
    }
  }

  lemma RejectedHasFailed(plan: Plan, world: World, i: nat, reason: string)
    requires plan.Valid() && i < |plan.blocks| && RejectionAfter(plan, world, i, |plan.Pieces(i)|) == Some(reason)
    ensures plan.splits[i].Unsplittable? || exists p | p in plan.Pieces(i) :: !world.translate(p).Translated?
  {
    hide BlockPieces;
    if plan.splits[i].Fragments? {
      FirstFailureFailed(world, plan.Pieces(i)[..|plan.Pieces(i)|]);
    }
  }

  lemma {:induction false} FirstFailureFailed(world: World, pieces: seq<Piece>)
    requires FirstFailure(world, pieces).Some?
    ensures exists p | p in pieces :: !world.translate(p).Translated?
  {
    var front, last := pieces[..|pieces| - 1], pieces[|pieces| - 1];
    if FirstFailure(world, front).Some? {
      FirstFailureFailed(world, front);
      var p :| p in front && !world.translate(p).Translated?;
      assert p in pieces;
    } else {
      assert last in pieces;
    }
  }

  lemma SameParts(world: World, pieces: seq<Piece>, own: seq<Part>, parts: seq<Part>)
    requires |own| == |parts| == |pieces|
    requires forall o | 0 <= o < |own| :: PieceTranslated(world, pieces[o], own[o])
    requires forall o | 0 <= o < |parts| && world.translate(pieces[o]).Translated? ::
               PieceTranslated(world, pieces[o], parts[o])
    ensures own == parts
    ensures forall p | p in pieces :: world.translate(p).Translated?
  {
    forall o | 0 <= o < |own|
      ensures own[o] == parts[o]
    {
      assert PieceTranslated(world, pieces[o], own[o]);
    }
  }
}
