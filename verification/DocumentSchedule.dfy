// What a document run sends and in which order: a record of its dispatches, what
// the browser's focus asks of each, and the order in which blocks end.
module DocumentSchedule {
  import opened Machine
  import opened Sorting
  import opened DocumentBatches
  import opened DocumentPlan
  import opened DocumentRun

  /** One batch taken: the reading of the focus it was taken by, the next piece
      of each block then, the batch, and how much of it was sent. */
  datatype Dispatch = Dispatch(clock: nat, frontier: seq<nat>, batch: seq<Piece>, sent: nat)

  // ---- What was sent ----

  function OfBlock(pieces: seq<Piece>, b: nat): seq<Piece> {
    if pieces == [] then []
    else
      var last := |pieces| - 1;
      OfBlock(pieces[..last], b) + if pieces[last].blockIndex == b then [pieces[last]] else []
  }

  /** The next piece of each block when some pieces have been sent. */
  function FrontierAfter(plan: Plan, retry: seq<string>, sent: seq<Piece>): (next: seq<nat>)
    requires |plan.splits| == |plan.blocks|
    ensures |next| == |plan.blocks|
    ensures forall i | 0 <= i < |next| ::
              next[i] == (if Targeted(plan, retry, i) then 0 else |plan.Pieces(i)|) + |OfBlock(sent, i)|
  {
    seq(|plan.blocks|, i requires 0 <= i < |plan.blocks| =>
      (if Targeted(plan, retry, i) then 0 else |plan.Pieces(i)|) + |OfBlock(sent, i)|)
  }

  /** Of every targeted block the first pieces, in order; of the others none. */
  ghost predicate SentInOrder(plan: Plan, retry: seq<string>, sent: seq<Piece>)
    requires |plan.splits| == |plan.blocks|
  {
    forall b | 0 <= b < |plan.blocks| ::
      OfBlock(sent, b) <= if Targeted(plan, retry, b) then plan.Pieces(b) else []
  }

  function SentBy(dispatches: seq<Dispatch>): seq<Piece> {
    if dispatches == [] then []
    else
      var last := dispatches[|dispatches| - 1];
      SentBy(dispatches[..|dispatches| - 1]) + last.batch[..Least(last.sent, |last.batch|)]
  }

  lemma OfBlockNext(sent: seq<Piece>, piece: Piece, b: nat)
    ensures OfBlock(sent + [piece], b) == OfBlock(sent, b) + if piece.blockIndex == b then [piece] else []
  {
    assert (sent + [piece])[..|sent|] == sent;
  }

  lemma FrontierNext(plan: Plan, retry: seq<string>, sent: seq<Piece>, piece: Piece)
    requires |plan.splits| == |plan.blocks| && piece.blockIndex < |plan.blocks|
    ensures var next := FrontierAfter(plan, retry, sent);
            FrontierAfter(plan, retry, sent + [piece]) == next[piece.blockIndex := next[piece.blockIndex] + 1]
  {
    hide OfBlock, Plan.Pieces, Targeted;
    forall i | 0 <= i < |plan.blocks|
      ensures |OfBlock(sent + [piece], i)| == |OfBlock(sent, i)| + if piece.blockIndex == i then 1 else 0
    {
      OfBlockNext(sent, piece, i);
    }
  }

  /** Sending a block's next piece goes on in order. */
  lemma SentNext(plan: Plan, retry: seq<string>, sent: seq<Piece>, piece: Piece)
    requires plan.Valid() && SentInOrder(plan, retry, sent) && plan.Planned(piece)
    requires piece.pieceOrder == FrontierAfter(plan, retry, sent)[piece.blockIndex]
    ensures SentInOrder(plan, retry, sent + [piece]) && Targeted(plan, retry, piece.blockIndex)
  {
    hide OfBlock, BlockPieces;
    forall b | 0 <= b < |plan.blocks|
      ensures OfBlock(sent + [piece], b) <= if Targeted(plan, retry, b) then plan.Pieces(b) else []
    {
      OfBlockNext(sent, piece, b);
    }
  }

  // ---- The order in which blocks end ----

  /** The blocks ended by a run, in order: first those complete from the start,
      then each as one of its pieces completes it. */
  function Completions(plan: Plan, retry: seq<string>, world: World, sent: seq<Piece>): (ended: seq<nat>)
    requires |plan.splits| == |plan.blocks|
    ensures forall k | 0 <= k < |ended| :: ended[k] < |plan.blocks|
  {
    if sent == [] then
      var due := Due(plan, retry, world, FrontierAfter(plan, retry, []), [], |plan.blocks|);
      assert forall k | 0 <= k < |due| :: due[k] in due;
      due
    else
      var last := |sent| - 1;
      var before, b := Completions(plan, retry, world, sent[..last]), sent[last].blockIndex;
      if b < |plan.blocks| && b !in before && CompleteAfter(plan, world, b, FrontierAfter(plan, retry, sent)[b])
      then before + [b] else before
  }

  lemma CompletionsNext(plan: Plan, retry: seq<string>, world: World, sent: seq<Piece>, piece: Piece)
    requires |plan.splits| == |plan.blocks| && piece.blockIndex < |plan.blocks|
    ensures var before, b := Completions(plan, retry, world, sent), piece.blockIndex;
            Completions(plan, retry, world, sent + [piece])
            == before + if b !in before && CompleteAfter(plan, world, b, FrontierAfter(plan, retry, sent + [piece])[b])
                        then [b] else []
  {
    assert (sent + [piece])[..|sent|] == sent;
    hide CompleteAfter, FrontierAfter;
  }

  /** If only one block can be due, a pass ends it or nothing. */
  lemma {:induction false} OnlyOneDue(plan: Plan, retry: seq<string>, world: World, next: seq<nat>, owner: seq<nat>,
                                      b: nat, n: nat)
    requires |plan.splits| == |plan.blocks| == |next| && n <= |plan.blocks| && b < |plan.blocks|
    requires forall i | 0 <= i < |plan.blocks| && i != b :: !IsDue(plan, retry, world, next, owner, i)
    ensures Due(plan, retry, world, next, owner, n)
         == if b < n && IsDue(plan, retry, world, next, owner, b) then [b] else []
    decreases n
  {
    hide Due, IsDue;
    if n == 0 {
      NothingDue(plan, retry, world, next, owner);
    } else {
      OnlyOneDue(plan, retry, world, next, owner, b, n - 1);
      DueNext(plan, retry, world, next, owner, n - 1);
    }
  }

  // ---- What the focus asks of a dispatch ----

  predicate HasWork(plan: Plan, frontier: seq<nat>, b: nat)
    requires |plan.splits| == |plan.blocks| == |frontier|
  {
    b < |plan.blocks| && frontier[b] < |plan.Pieces(b)|
  }

  /** The browser shows the block and it has pieces left. */
  predicate ShownWork(plan: Plan, frontier: seq<nat>, focus: Focus, b: nat)
    requires |plan.splits| == |plan.blocks| == |frontier|
  {
    HasWork(plan, frontier, b) && plan.blocks[b].itemId in focus.visible
  }

  predicate SomeShownWork(plan: Plan, frontier: seq<nat>, focus: Focus)
    requires |plan.splits| == |plan.blocks| == |frontier|
  {
    exists b | 0 <= b < |plan.blocks| :: ShownWork(plan, frontier, focus, b)
  }

  /** A batch starts with the next piece of the first shown block that has any
      left, or else of the first block that has. */
  ghost predicate RightStart(plan: Plan, frontier: seq<nat>, focus: Focus, batch: seq<Piece>)
    requires |plan.splits| == |plan.blocks| == |frontier|
  {
    && batch != []
    && var b := batch[0].blockIndex;
    && HasWork(plan, frontier, b) && batch[0] == plan.Pieces(b)[frontier[b]]
    && if SomeShownWork(plan, frontier, focus)
       then ShownWork(plan, frontier, focus, b) && forall i | 0 <= i < b :: !ShownWork(plan, frontier, focus, i)
       else forall i | 0 <= i < b :: !HasWork(plan, frontier, i)
  }

  predicate Later(p: Piece, q: Piece) {
    p.blockIndex < q.blockIndex || (p.blockIndex == q.blockIndex && p.pieceOrder < q.pieceOrder)
  }

  predicate Adjacent(p: Piece, q: Piece) {
    || (q.blockIndex == p.blockIndex && q.pieceOrder == p.pieceOrder + 1)
    || (q.blockIndex == p.blockIndex + 1 && q.pieceOrder == 0)
  }

  /** What is asked of each piece of a batch by itself. */
  ghost predicate RightMember(plan: Plan, frontier: seq<nat>, focus: Focus, piece: Piece, only: Option<nat>,
                              shown: bool)
    requires |plan.splits| == |plan.blocks| == |frontier|
  {
    && plan.Planned(piece) && frontier[piece.blockIndex] <= piece.pieceOrder
    && (shown ==> plan.blocks[piece.blockIndex].itemId in focus.visible)
    && (only.Some? ==> piece.blockIndex == only.value)
  }

  predicate GoesOn(batch: seq<Piece>, k: nat)
    requires k + 1 < |batch|
  {
    Adjacent(batch[k], batch[k + 1])
  }

  /** Adjacent unsent pieces; if a block with work is shown, only shown blocks,
      and only the first one when it is to go alone. */
  ghost predicate RightMembers(plan: Plan, frontier: seq<nat>, focus: Focus, batch: seq<Piece>, alone: bool)
    requires |plan.splits| == |plan.blocks| == |frontier|
  {
    && (forall k | 0 <= k < |batch| - 1 :: GoesOn(batch, k))
    && batch != []
    && (var shown := SomeShownWork(plan, frontier, focus);
        forall p | p in batch ::
          RightMember(plan, frontier, focus, p, if alone && shown then Some(batch[0].blockIndex) else None, shown))
    && |batch| <= 6
    && (|batch| > 1 ==> TokenTotal(batch) <= 1800)
  }

  /** The first unsent piece behind a batch. */
  ghost predicate ComesNext(plan: Plan, frontier: seq<nat>, last: Piece, p: Piece)
    requires |plan.splits| == |plan.blocks| == |frontier|
  {
    && plan.Planned(p) && frontier[p.blockIndex] <= p.pieceOrder && Later(last, p)
    && forall q | plan.Planned(q) && frontier[q.blockIndex] <= q.pieceOrder && Later(last, q) :: !Later(q, p)
  }

  /** A batch ends only where the piece behind it could not have joined. */
  ghost predicate RightEnd(plan: Plan, frontier: seq<nat>, focus: Focus, batch: seq<Piece>, alone: bool)
    requires |plan.splits| == |plan.blocks| == |frontier| && batch != []
  {
    var last := batch[|batch| - 1];
    forall p | ComesNext(plan, frontier, last, p) ::
      || !Adjacent(last, p)
      || |batch| == 6
      || TokenTotal(batch) + p.tokenCount > 1800
      || (SomeShownWork(plan, frontier, focus) && plan.Planned(p)
          && (plan.blocks[p.blockIndex].itemId !in focus.visible || (alone && p.blockIndex != batch[0].blockIndex)))
  }

  ghost predicate RightBatch(plan: Plan, frontier: seq<nat>, focus: Focus, batch: seq<Piece>, alone: bool) {
    && |plan.splits| == |plan.blocks| == |frontier|
    && RightStart(plan, frontier, focus, batch)
    && RightMembers(plan, frontier, focus, batch, alone)
    && RightEnd(plan, frontier, focus, batch, alone)
  }

  // ---- A batch taken from the queue is right ----

  lemma WorkIsQueued(plan: Plan, next: seq<nat>, queue: seq<Piece>, b: nat)
    requires IsQueue(plan, next, queue) && b < |plan.blocks|
    ensures HasPieceOf(queue, b) <==> HasWork(plan, next, b)
    ensures HasWork(plan, next, b) ==> plan.Pieces(b)[next[b]] in queue
  {
    if HasWork(plan, next, b) {
      assert Unsent(plan, next, plan.Pieces(b)[next[b]]);
    }
    if HasPieceOf(queue, b) {
      var p :| p in queue && p.blockIndex == b;
      assert Unsent(plan, next, p);
    }
  }

  lemma PriorityIsShownWork(plan: Plan, next: seq<nat>, queue: seq<Piece>, focus: Focus, visible: set<string>,
                            priority: Option<nat>)
    requires IsQueue(plan, next, queue) && visible == (set id | id in focus.visible)
    requires priority.Some? ==> IsPriority(queue, plan.ItemIds(), visible, priority.value)
    requires priority.None? ==>
               forall i | 0 <= i < |plan.ItemIds()| :: !(plan.ItemIds()[i] in visible && HasPieceOf(queue, i))
    ensures priority.Some? <==> SomeShownWork(plan, next, focus)
    ensures priority.Some? ==> ShownWork(plan, next, focus, priority.value)
    ensures priority.Some? ==> forall i | 0 <= i < priority.value :: !ShownWork(plan, next, focus, i)
  {
    assert |plan.splits| == |plan.blocks| == |next|;
    hide IsQueue, HasPieceOf, HasWork;
    forall i | 0 <= i < |plan.blocks|
      ensures ShownWork(plan, next, focus, i) <==> plan.ItemIds()[i] in visible && HasPieceOf(queue, i)
    {
      WorkIsQueued(plan, next, queue, i);
    }
  }

  ghost predicate InDocumentOrder(ordered: seq<Piece>) {
    forall i, j | 0 <= i < j < |ordered| ::
      KeyAtMost(ordered[i], ordered[j]) && !KeyAtMost(ordered[j], ordered[i])
  }

  lemma TakenStartsRight(plan: Plan, next: seq<nat>, ordered: seq<Piece>, focus: Focus, start: nat, batch: seq<Piece>,
                         priority: Option<nat>)
    requires IsQueue(plan, next, ordered) && InDocumentOrder(ordered)
    requires batch != [] && start + |batch| <= |ordered| && batch == ordered[start..start + |batch|]
    requires priority.Some? <==> SomeShownWork(plan, next, focus)
    requires priority.Some? ==>
               && ShownWork(plan, next, focus, priority.value)
               && (forall i | 0 <= i < priority.value :: !ShownWork(plan, next, focus, i))
               && ordered[start].blockIndex == priority.value
               && forall i | 0 <= i < start :: ordered[i].blockIndex != priority.value
    requires priority.None? ==> start == 0
    ensures RightStart(plan, next, focus, batch)
  {
    var head := ordered[start];
    assert batch[0] == head;
    assert Unsent(plan, next, head);
    FirstQueuedIsNext(plan, next, ordered, start);
    hide ShownWork, SomeShownWork;
    if priority.None? {
      forall i | 0 <= i < head.blockIndex
        ensures !HasWork(plan, next, i)
      {
        WorkIsQueued(plan, next, ordered, i);
        NothingBeforeTheFirst(ordered, i);
      }
    }
  }

  lemma NothingBeforeTheFirst(ordered: seq<Piece>, b: nat)
    requires InDocumentOrder(ordered) && ordered != [] && b < ordered[0].blockIndex
    ensures !HasPieceOf(ordered, b)
  {
    forall k | 0 <= k < |ordered|
      ensures ordered[k].blockIndex != b
    {
      assert k > 0 ==> KeyAtMost(ordered[0], ordered[k]);
    }
  }

  lemma TakenMember(plan: Plan, next: seq<nat>, ordered: seq<Piece>, focus: Focus, visible: set<string>,
                    start: nat, batch: seq<Piece>, alone: bool, priority: Option<nat>, k: nat)
    requires IsQueue(plan, next, ordered) && visible == (set id | id in focus.visible)
    requires forall p | p in ordered :: p.blockIndex < |plan.ItemIds()|
    requires IsBatch(ordered, start, batch, plan.ItemIds(), visible, alone, priority) && k < |batch|
    ensures plan.Planned(batch[k]) && next[batch[k].blockIndex] <= batch[k].pieceOrder
    ensures priority.Some? ==>
              && batch[k].blockIndex < |plan.blocks| && plan.blocks[batch[k].blockIndex].itemId in focus.visible
              && (alone ==> batch[k].blockIndex == priority.value)
  {
    hide TokenTotal, Plan.Pieces;
    assert ordered[start + k] == batch[k] && Unsent(plan, next, batch[k]);
    assert MayJoin(ordered[start..start + k], ordered[start + k], plan.ItemIds(), visible, alone, priority);
  }

  lemma TakenHasRightMembers(plan: Plan, next: seq<nat>, ordered: seq<Piece>, focus: Focus, visible: set<string>,
                             start: nat, batch: seq<Piece>, alone: bool, priority: Option<nat>)
    requires IsQueue(plan, next, ordered) && batch != [] && visible == (set id | id in focus.visible)
    requires forall p | p in ordered :: p.blockIndex < |plan.ItemIds()|
    requires IsBatch(ordered, start, batch, plan.ItemIds(), visible, alone, priority)
    requires priority.Some? <==> SomeShownWork(plan, next, focus)
    requires priority.Some? ==> batch[0].blockIndex == priority.value
    requires |batch| <= BATCH_MAX && (|batch| > 1 ==> TokenTotal(batch) <= BATCH_TOKEN_BUDGET)
    ensures RightMembers(plan, next, focus, batch, alone)
  {
    assert |plan.splits| == |plan.blocks| == |next|;
    hide *;
    TakenMembers(plan, next, ordered, focus, visible, start, batch, alone, priority);
    TakenGoesOn(plan, ordered, visible, start, batch, alone, priority);
    MembersAreRight(plan, next, focus, batch, alone, priority);
  }

  lemma TakenMembers(plan: Plan, next: seq<nat>, ordered: seq<Piece>, focus: Focus, visible: set<string>,
                     start: nat, batch: seq<Piece>, alone: bool, priority: Option<nat>)
    requires IsQueue(plan, next, ordered) && visible == (set id | id in focus.visible)
    requires forall p | p in ordered :: p.blockIndex < |plan.ItemIds()|
    requires IsBatch(ordered, start, batch, plan.ItemIds(), visible, alone, priority)
    ensures |plan.splits| == |plan.blocks| == |next|
    ensures forall p | p in batch ::
              RightMember(plan, next, focus, p, if alone then priority else None, priority.Some?)
  {
    forall p | p in batch
      ensures RightMember(plan, next, focus, p, if alone then priority else None, priority.Some?)
    {
      var k :| 0 <= k < |batch| && batch[k] == p;
      hide IsBatch, Plan.Pieces;
      TakenMember(plan, next, ordered, focus, visible, start, batch, alone, priority, k);
    }
  }

  lemma TakenGoesOn(plan: Plan, ordered: seq<Piece>, visible: set<string>, start: nat, batch: seq<Piece>, alone: bool,
                    priority: Option<nat>)
    requires forall p | p in ordered :: p.blockIndex < |plan.ItemIds()|
    requires IsBatch(ordered, start, batch, plan.ItemIds(), visible, alone, priority)
    ensures forall k | 0 <= k < |batch| - 1 :: GoesOn(batch, k)
  {
    hide *;
    forall k | 0 <= k < |batch| - 1
      ensures GoesOn(batch, k)
    {
      BatchFollows(ordered, start, batch, plan.ItemIds(), visible, alone, priority, k + 1);
      FollowingGoesOn(batch, k);
    }
  }

  lemma FollowingGoesOn(batch: seq<Piece>, k: nat)
    requires k + 1 < |batch| && Follows(batch[k], batch[k + 1])
    ensures GoesOn(batch, k)
  {
  }

  lemma MembersAreRight(plan: Plan, next: seq<nat>, focus: Focus, batch: seq<Piece>, alone: bool, priority: Option<nat>)
    requires |plan.splits| == |plan.blocks| == |next| && batch != []
    requires forall p | p in batch ::
               RightMember(plan, next, focus, p, if alone then priority else None, priority.Some?)
    requires forall k | 0 <= k < |batch| - 1 :: GoesOn(batch, k)
    requires priority.Some? <==> SomeShownWork(plan, next, focus)
    requires priority.Some? ==> batch[0].blockIndex == priority.value
    requires |batch| <= BATCH_MAX && (|batch| > 1 ==> TokenTotal(batch) <= BATCH_TOKEN_BUDGET)
    ensures RightMembers(plan, next, focus, batch, alone)
  {
    hide TokenTotal, SomeShownWork, Plan.Pieces, GoesOn;
  }

  lemma NextInQueue(plan: Plan, next: seq<nat>, ordered: seq<Piece>, end: nat, p: Piece)
    requires IsQueue(plan, next, ordered) && InDocumentOrder(ordered) && 0 < end <= |ordered|
    requires ComesNext(plan, next, ordered[end - 1], p)
    ensures end < |ordered| && ordered[end] == p
  {
    assert Unsent(plan, next, p);
    var m :| 0 <= m < |ordered| && ordered[m] == p;
    assert m >= end;
    assert Unsent(plan, next, ordered[end]);
    assert Later(ordered[end - 1], ordered[end]);
  }

  lemma WhyNotJoined(plan: Plan, focus: Focus, visible: set<string>, batch: seq<Piece>, p: Piece, alone: bool,
                     priority: Option<nat>)
    requires |plan.splits| == |plan.blocks| && plan.Planned(p) && visible == (set id | id in focus.visible)
    requires batch != [] && |batch| <= BATCH_MAX && (priority.Some? ==> batch[0].blockIndex == priority.value)
    requires !MayJoin(batch, p, plan.ItemIds(), visible, alone, priority)
    ensures || !Adjacent(batch[|batch| - 1], p) || |batch| == 6 || TokenTotal(batch) + p.tokenCount > 1800
            || (priority.Some? && (plan.blocks[p.blockIndex].itemId !in focus.visible
                                   || (alone && p.blockIndex != batch[0].blockIndex)))
  {
    hide TokenTotal, Plan.Pieces;
  }

  lemma TakenEndsRight(plan: Plan, next: seq<nat>, ordered: seq<Piece>, focus: Focus, visible: set<string>,
                       start: nat, batch: seq<Piece>, alone: bool, priority: Option<nat>)
    requires IsQueue(plan, next, ordered) && InDocumentOrder(ordered) && batch != []
    requires visible == (set id | id in focus.visible)
    requires forall p | p in ordered :: p.blockIndex < |plan.ItemIds()|
    requires IsBatch(ordered, start, batch, plan.ItemIds(), visible, alone, priority)
    requires priority.Some? <==> SomeShownWork(plan, next, focus)
    requires priority.Some? ==> batch[0].blockIndex == priority.value
    requires |batch| <= BATCH_MAX
    ensures RightEnd(plan, next, focus, batch, alone)
  {
    var last, end := batch[|batch| - 1], start + |batch|;
    assert last == ordered[end - 1] && |plan.splits| == |plan.blocks| == |next|;
    assert end < |ordered| ==> !MayJoin(batch, ordered[end], plan.ItemIds(), visible, alone, priority);
    hide TokenTotal, SomeShownWork, IsBatch, IsQueue, InDocumentOrder, ComesNext, Plan.Planned, MayJoin, Adjacent;
    forall p | ComesNext(plan, next, last, p)
      ensures plan.Planned(p)
      ensures || !Adjacent(last, p) || |batch| == 6 || TokenTotal(batch) + p.tokenCount > 1800
              || (priority.Some? && (plan.blocks[p.blockIndex].itemId !in focus.visible
                                     || (alone && p.blockIndex != batch[0].blockIndex)))
    {
      NextIsPlanned(plan, next, last, p);
      NextInQueue(plan, next, ordered, end, p);
      WhyNotJoined(plan, focus, visible, batch, p, alone, priority);
    }
  }

  lemma NextIsPlanned(plan: Plan, frontier: seq<nat>, last: Piece, p: Piece)
    requires |plan.splits| == |plan.blocks| == |frontier| && ComesNext(plan, frontier, last, p)
    ensures plan.Planned(p) && p.blockIndex < |plan.blocks|
  {
  }

  lemma TakenIsRight(plan: Plan, next: seq<nat>, remaining: seq<Piece>, focus: Focus, visible: set<string>,
                     start: nat, batch: seq<Piece>, alone: bool, priority: Option<nat>)
    requires IsQueue(plan, next, remaining) && batch != [] && visible == (set id | id in focus.visible)
    requires forall p | p in Sort(remaining, KeyAtMost) :: p.blockIndex < |plan.ItemIds()|
    requires priority.Some? ==> IsPriority(remaining, plan.ItemIds(), visible, priority.value)
    requires priority.None? ==>
               forall i | 0 <= i < |plan.ItemIds()| :: !(plan.ItemIds()[i] in visible && HasPieceOf(remaining, i))
    requires var ordered := Sort(remaining, KeyAtMost);
             && IsBatch(ordered, start, batch, plan.ItemIds(), visible, alone, priority)
             && (if priority.Some?
                 then start < |ordered| && ordered[start].blockIndex == priority.value
                      && forall i | 0 <= i < start :: ordered[i].blockIndex != priority.value
                 else start == 0)
    requires |batch| <= BATCH_MAX && (|batch| > 1 ==> TokenTotal(batch) <= BATCH_TOKEN_BUDGET)
    ensures RightBatch(plan, next, focus, batch, alone)
  {
    var ordered := Sort(remaining, KeyAtMost);
    SortedQueue(plan, next, remaining);
    PriorityIsShownWork(plan, next, remaining, focus, visible, priority);
    assert |plan.splits| == |plan.blocks| == |next|;
    assert start + |batch| <= |ordered| && batch == ordered[start..start + |batch|] && batch[0] == ordered[start];
    hide IsQueue, Sort, KeyAtMost, IsBatch, IsPriority, HasPieceOf, TokenTotal, ShownWork, SomeShownWork, DistinctIds;
    TakenStartsRight(plan, next, ordered, focus, start, batch, priority);
    TakenHasRightMembers(plan, next, ordered, focus, visible, start, batch, alone, priority);
    TakenEndsRight(plan, next, ordered, focus, visible, start, batch, alone, priority);
  }

  // ---- The record of a run ----

  /** The focus readings a dispatch used up: its own, one for every piece sent,
      and the one that showed it had moved. */
  function EndClock(d: Dispatch): nat {
    d.clock + 1 + d.sent + if d.sent < |d.batch| then 1 else 0
  }

  /** At a reading the browser shows what it showed when a batch was selected. */
  predicate Unmoved(world: World, selected: Focus, clock: nat) {
    world.focus(clock).active && world.focus(clock).visible == selected.visible
  }

  predicate Aborts(world: World, piece: Piece) {
    world.translate(piece).Aborted?
  }

  /** Taken by the first active focus since `from`, and sent under that focus
      up to the reading that differed, if it was not sent to its end. */
  ghost predicate RightTime(world: World, from: nat, d: Dispatch) {
    && from <= d.clock && world.focus(d.clock).active
    && (forall c | from <= c < d.clock :: !world.focus(c).active)
    && (forall c | from <= c < d.clock :: !world.cancelled(c))
    && d.sent <= |d.batch|
    && (forall c | d.clock < c <= d.clock + d.sent :: Unmoved(world, world.focus(d.clock), c))
    && (forall j | 0 <= j < d.sent :: !Aborts(world, d.batch[j]))
  }

  predicate FocusMoved(world: World, d: Dispatch) {
    !Unmoved(world, world.focus(d.clock), d.clock + 1 + d.sent)
  }

  ghost predicate RightDispatch(plan: Plan, retry: seq<string>, world: World, dispatches: seq<Dispatch>, k: nat)
    requires |plan.splits| == |plan.blocks| && k < |dispatches|
  {
    var d := dispatches[k];
    && d.frontier == FrontierAfter(plan, retry, SentBy(dispatches[..k]))
    && RightBatch(plan, d.frontier, world.focus(d.clock), d.batch, k == 0)
    && RightTime(world, if k == 0 then 1 else EndClock(dispatches[k - 1]), d)
  }

  /** Every dispatch was right, and all but the last were sent to their end or
      stopped because the focus had moved. */
  ghost predicate Scheduled(plan: Plan, retry: seq<string>, world: World, dispatches: seq<Dispatch>) {
    && |plan.splits| == |plan.blocks|
    && (forall k | 0 <= k < |dispatches| :: RightDispatch(plan, retry, world, dispatches, k))
    && (forall k | 0 <= k < |dispatches| - 1 ::
          dispatches[k].sent < |dispatches[k].batch| ==> FocusMoved(world, dispatches[k]))
    && SentInOrder(plan, retry, SentBy(dispatches))
  }

  /** The last dispatch was sent to its end or stopped because the focus moved. */
  ghost predicate LastIsDone(world: World, dispatches: seq<Dispatch>) {
    dispatches != [] ==>
      var last := dispatches[|dispatches| - 1]; last.sent < |last.batch| ==> FocusMoved(world, last)
  }

  /** The last dispatch stopped at a piece whose translation failed. */
  predicate LastAborted(world: World, dispatches: seq<Dispatch>) {
    dispatches != [] &&
      var last := dispatches[|dispatches| - 1];
      last.sent < |last.batch| && Aborts(world, last.batch[last.sent])
  }

  function LastEnd(dispatches: seq<Dispatch>): nat {
    if dispatches == [] then 1 else EndClock(dispatches[|dispatches| - 1])
  }

  lemma SentByNext(dispatches: seq<Dispatch>, d: Dispatch)
    requires d.sent <= |d.batch|
    ensures SentBy(dispatches + [d]) == SentBy(dispatches) + d.batch[..d.sent]
  {
    assert (dispatches + [d])[..|dispatches|] == dispatches;
  }

  lemma EarlierDispatch(plan: Plan, retry: seq<string>, world: World, dispatches: seq<Dispatch>, d: Dispatch, k: nat)
    requires |plan.splits| == |plan.blocks| && k < |dispatches| && RightDispatch(plan, retry, world, dispatches, k)
    ensures RightDispatch(plan, retry, world, dispatches + [d], k)
  {
    hide RightBatch, RightTime, FrontierAfter, EndClock, SentBy;
    assert (dispatches + [d])[..k] == dispatches[..k];
  }

  lemma LatestDispatch(plan: Plan, retry: seq<string>, world: World, dispatches: seq<Dispatch>, d: Dispatch)
    requires |plan.splits| == |plan.blocks|
    requires d.frontier == FrontierAfter(plan, retry, SentBy(dispatches))
    requires RightBatch(plan, d.frontier, world.focus(d.clock), d.batch, dispatches == [])
    requires RightTime(world, LastEnd(dispatches), d)
    ensures RightDispatch(plan, retry, world, dispatches + [d], |dispatches|)
  {
    hide RightBatch, RightTime, FrontierAfter, EndClock, SentBy;
    assert (dispatches + [d])[..|dispatches|] == dispatches;
  }

  lemma ScheduledNext(plan: Plan, retry: seq<string>, world: World, dispatches: seq<Dispatch>, d: Dispatch)
    requires Scheduled(plan, retry, world, dispatches)
    requires LastIsDone(world, dispatches)
    requires d.frontier == FrontierAfter(plan, retry, SentBy(dispatches))
    requires RightBatch(plan, d.frontier, world.focus(d.clock), d.batch, dispatches == [])
    requires RightTime(world, LastEnd(dispatches), d) && d.sent <= |d.batch|
    requires SentInOrder(plan, retry, SentBy(dispatches) + d.batch[..d.sent])
    ensures Scheduled(plan, retry, world, dispatches + [d])
    ensures SentBy(dispatches + [d]) == SentBy(dispatches) + d.batch[..d.sent]
    ensures LastEnd(dispatches + [d]) == EndClock(d)
    ensures LastIsDone(world, dispatches + [d]) <==> (d.sent < |d.batch| ==> FocusMoved(world, d))
    ensures LastAborted(world, dispatches + [d]) <==> d.sent < |d.batch| && Aborts(world, d.batch[d.sent])
  {
    hide RightBatch, RightTime, FrontierAfter, SentInOrder, FocusMoved, SentBy, RightDispatch, EndClock, Aborts;
    SentByNext(dispatches, d);
    forall k | 0 <= k < |dispatches| + 1
      ensures RightDispatch(plan, retry, world, dispatches + [d], k)
    {
      if k < |dispatches| {
        EarlierDispatch(plan, retry, world, dispatches, d, k);
      } else {
        LatestDispatch(plan, retry, world, dispatches, d);
      }
    }
  }

  // ---- The log of a run ----

  function LogIds(log: seq<Update>): seq<string> {
    seq(|log|, k requires 0 <= k < |log| => log[k].itemId)
  }

  function BlockIds(plan: Plan, owner: seq<nat>): seq<string>
    requires forall k | 0 <= k < |owner| :: owner[k] < |plan.blocks|
  {
    seq(|owner|, k requires 0 <= k < |owner| => plan.blocks[owner[k]].itemId)
  }

  lemma LogFollowsOwners(plan: Plan, retry: seq<string>, world: World, log: seq<Update>, owner: seq<nat>,
                         ended: seq<nat>)
    requires plan.Valid() && LogSound(plan, retry, world, log, owner) && owner <= ended
    requires forall k | 0 <= k < |ended| :: ended[k] < |plan.blocks|
    ensures LogIds(log) <= BlockIds(plan, ended)
    ensures owner == ended ==> LogIds(log) == BlockIds(plan, ended)
  {
    forall k | 0 <= k < |log|
      ensures log[k].itemId == plan.blocks[ended[k]].itemId
    {
      assert IsTerminal(plan, world, owner[k], log[k]);
    }
  }

  /** How a run ends: nothing happens once cancelled before its start; else the
      log ends the blocks in the order in which the pieces sent complete them, a
      finished run has sent every piece of every targeted block, and a failed run
      met the failure it names: a translation, the sink, or a cancellation. */
  ghost predicate EndsInOrder(plan: Plan, retry: seq<string>, world: World, result: RunResult, log: seq<Update>,
                              dispatches: seq<Dispatch>) {
    && plan.Valid()
    && (world.cancelled(0) ==> result == Failed(Cancelled) && log == [] && dispatches == [])
    && (!world.cancelled(0) ==>
          var ended := BlockIds(plan, Completions(plan, retry, world, SentBy(dispatches)));
          LogIds(log) <= ended && (result != Failed(SinkFailed) ==> LogIds(log) == ended))
    && (result.Finished? ==>
          forall b | 0 <= b < |plan.blocks| && Targeted(plan, retry, b) ::
            OfBlock(SentBy(dispatches), b) == plan.Pieces(b))
    && (match result
        case Failed(TranslationFailed) => LastAborted(world, dispatches)
        case Failed(SinkFailed) => SinkFails(world, |log|)
        case Failed(Cancelled) =>
          LastIsDone(world, dispatches) && (world.cancelled(0) || CancelledWhileWaiting(world, LastEnd(dispatches)))
        case _ => LastIsDone(world, dispatches))
  }

  /** Since a reading the focus was inactive until the job was cancelled. */
  ghost predicate CancelledWhileWaiting(world: World, from: nat) {
    exists c :: from <= c && world.cancelled(c) && forall b | from <= b < c :: !world.focus(b).active
  }

  lemma NothingRecorded(plan: Plan, retry: seq<string>, world: World)
    requires plan.Valid()
    ensures Scheduled(plan, retry, world, []) && SentBy([]) == [] && LastEnd([]) == 1
    ensures LastIsDone(world, []) && SentInOrder(plan, retry, [])
  {
  }

  /** After a piece was sent, one pass brings the ended blocks up to date. */
  lemma PassAfterPiece(plan: Plan, retry: seq<string>, world: World, sent: seq<Piece>, piece: Piece, owner: seq<nat>)
    requires |plan.splits| == |plan.blocks| && piece.blockIndex < |plan.blocks|
    requires Targeted(plan, retry, piece.blockIndex)
    requires owner == Completions(plan, retry, world, sent)
    requires var next := FrontierAfter(plan, retry, sent);
             forall i | 0 <= i < |plan.blocks| && Targeted(plan, retry, i) ::
               i in owner <==> CompleteAfter(plan, world, i, next[i])
    ensures owner + Due(plan, retry, world, FrontierAfter(plan, retry, sent + [piece]), owner, |plan.blocks|)
         == Completions(plan, retry, world, sent + [piece])
  {
    hide CompleteAfter, Due, Completions, OfBlock;
    var b, next := piece.blockIndex, FrontierAfter(plan, retry, sent + [piece]);
    FrontierNext(plan, retry, sent, piece);
    hide FrontierAfter;
    OnlyOneDue(plan, retry, world, next, owner, b, |plan.blocks|);
    CompletionsNext(plan, retry, world, sent, piece);
  }

  /** With nothing left in the queue everything targeted has been sent. */
  lemma EverythingSent(plan: Plan, retry: seq<string>, sent: seq<Piece>)
    requires plan.Valid() && SentInOrder(plan, retry, sent)
    requires var next := FrontierAfter(plan, retry, sent); Frontier(plan, next) && IsQueue(plan, next, [])
    ensures forall b | 0 <= b < |plan.blocks| && Targeted(plan, retry, b) :: OfBlock(sent, b) == plan.Pieces(b)
  {
    hide OfBlock, BlockPieces;
    var next := FrontierAfter(plan, retry, sent);
    forall b | 0 <= b < |plan.blocks| && Targeted(plan, retry, b)
      ensures OfBlock(sent, b) == plan.Pieces(b)
    {
      assert next[b] < |plan.Pieces(b)| ==> Unsent(plan, next, plan.Pieces(b)[next[b]]);
    }
  }
}
