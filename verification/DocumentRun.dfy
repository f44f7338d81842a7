// The document loop (pipeline_adapter.rs, DocumentPipeline::run) from splitting
// to the last published block. The language model, the validator, the browser's
// focus, cancellation and the update sink are arbitrary.
module DocumentRun {
  import opened Machine
  import opened DocumentBatches
  import opened DocumentPlan

  const OMITTED := "the language model omitted this document piece"
  const JOINED_INVALID := "joined document block failed whole-block HSK validation"

  datatype Translation = Translation(base: string, displayed: string, accepted: bool)

  datatype PieceOutcome = Translated(value: Translation) | Rejected(reason: string) | Omitted | Aborted

  datatype Judgement = Judgement(normalized: string, requiresRepair: bool)

  datatype Focus = Focus(active: bool, visible: seq<string>)

  /** Everything outside the loop. A piece is translated at most once in a run,
      so its outcome may be looked up by the piece; `focus` is read by a clock
      that ticks with every reading. */
  datatype World = World(
    focus: nat -> Focus,
    translate: Piece -> PieceOutcome,
    judge: (string, string) -> Judgement,
    cancelled: nat -> bool,
    sinkFails: nat -> bool)

  /** From some reading on the focus no longer changes and is active, or the run
      stays cancelled. */
  ghost predicate Settles(world: World, horizon: nat) {
    || (forall t | t >= horizon :: world.focus(t).active && world.focus(t).visible == world.focus(horizon).visible)
    || (forall t | t >= horizon :: world.cancelled(t))
  }

  datatype Update =
    | Ready(itemId: string, sourceText: string, base: string, displayed: string, accepted: bool)
    | Preserved(itemId: string, sourceText: string, reason: string)

  datatype RunError = Cancelled | TranslationFailed | SinkFailed

  /** A run is watched up to a horizon, after which only progress is followed. */
  datatype RunResult = Finished | Failed(error: RunError) | StillRunning

  function FailureReason(outcome: PieceOutcome): Option<string> {
    match outcome
    case Rejected(reason) => Some(reason)
    case Omitted => Some(OMITTED)
    case _ => None
  }

  type Part = (Translation, string)

  /** Pieces and separators concatenated in order. */
  function Join(parts: seq<Part>): Translation {
    if parts == [] then Translation("", "", false)
    else
      var (value, separator) := parts[|parts| - 1];
      var front := Join(parts[..|parts| - 1]);
      Translation(front.base + value.base + separator,
                  front.displayed + value.displayed + separator,
                  front.accepted || value.accepted)
  }

  /** Joining joins: the texts of two runs of parts are those of both, in order. */
  lemma {:induction false} JoinIsConcatenation(a: seq<Part>, b: seq<Part>)
    ensures Join(a + b).base == Join(a).base + Join(b).base
    ensures Join(a + b).displayed == Join(a).displayed + Join(b).displayed
    ensures Join(a + b).accepted <==> Join(a).accepted || Join(b).accepted
    decreases |b|
  {
    if b == [] {
      assert a + b == a;
    } else {
      var front := b[..|b| - 1];
      assert (a + b)[..|a + b| - 1] == a + front;
      JoinIsConcatenation(a, front);
    }
  }

  lemma JoinOfOne(part: Part)
    ensures Join([part]) == Translation(part.0.base + part.1, part.0.displayed + part.1, part.0.accepted)
  {
    assert [part][..0] == [];
  }

  /** The update that ends a block all of whose pieces were translated. */
  function JoinedUpdate(world: World, block: Block, parts: seq<Part>): Update {
    var joined := Join(parts);
    var judgement := world.judge(block.itemId, joined.displayed);
    if judgement.requiresRepair then Preserved(block.itemId, block.text, JOINED_INVALID)
    else Ready(block.itemId, block.text, joined.base, judgement.normalized, joined.accepted)
  }

  ghost predicate PieceTranslated(world: World, piece: Piece, part: Part) {
    && world.translate(piece).Translated?
    && part == (world.translate(piece).value, piece.separatorAfter)
  }

  /** The reason given by the first of some pieces that failed. */
  function FirstFailure(world: World, pieces: seq<Piece>): Option<string> {
    if pieces == [] then None
    else
      var front := FirstFailure(world, pieces[..|pieces| - 1]);
      if front.Some? then front else FailureReason(world.translate(pieces[|pieces| - 1]))
  }

  /** Why block `i` is kept in the source language, once `n` of its pieces have
      been sent: it could not be split, or the first of them that failed. */
  function RejectionAfter(plan: Plan, world: World, i: nat, n: nat): Option<string>
    requires |plan.splits| == |plan.blocks| && i < |plan.blocks|
  {
    match plan.splits[i]
    case Unsplittable(reason, _) => Some(reason)
    case Fragments(_) => FirstFailure(world, plan.Pieces(i)[..Least(n, |plan.Pieces(i)|)])
  }

  /** A block is complete when it is rejected or all of it was sent. */
  predicate CompleteAfter(plan: Plan, world: World, i: nat, n: nat)
    requires |plan.splits| == |plan.blocks| && i < |plan.blocks|
  {
    RejectionAfter(plan, world, i, n).Some? || n >= |plan.Pieces(i)|
  }

  lemma RejectionNext(plan: Plan, world: World, i: nat, n: nat)
    requires |plan.splits| == |plan.blocks| && i < |plan.blocks| && n < |plan.Pieces(i)|
    ensures RejectionAfter(plan, world, i, n + 1)
         == if RejectionAfter(plan, world, i, n).Some? then RejectionAfter(plan, world, i, n)
            else FailureReason(world.translate(plan.Pieces(i)[n]))
  {
    assert plan.Pieces(i)[..n + 1][..n] == plan.Pieces(i)[..n];
  }

  /** A rejection stands. */
  lemma {:induction false} RejectionStands(plan: Plan, world: World, i: nat, n: nat, m: nat)
    requires |plan.splits| == |plan.blocks| && i < |plan.blocks| && n <= m <= |plan.Pieces(i)|
    ensures RejectionAfter(plan, world, i, n).Some? ==>
              RejectionAfter(plan, world, i, m) == RejectionAfter(plan, world, i, n)
    decreases m - n
  {
    hide RejectionAfter;
    if n < m {
      RejectionStands(plan, world, i, n, m - 1);
      RejectionNext(plan, world, i, m - 1);
    }
  }

  /** The terminal update of block `i`, whatever order its pieces completed in. */
  ghost predicate IsTerminal(plan: Plan, world: World, i: nat, update: Update)
    requires plan.Valid() && i < |plan.blocks|
  {
    var block := plan.blocks[i];
    && update.itemId == block.itemId && update.sourceText == block.text
    && (|| (update.Preserved? && RejectionAfter(plan, world, i, |plan.Pieces(i)|) == Some(update.reason))
        || (plan.splits[i].Fragments? && exists parts: seq<Part> ::
              && |parts| == |plan.Pieces(i)|
              && (forall o | 0 <= o < |parts| :: PieceTranslated(world, plan.Pieces(i)[o], parts[o]))
              && update == JoinedUpdate(world, block, parts)))
  }

  predicate Targeted(plan: Plan, retry: seq<string>, i: nat)
    requires i < |plan.blocks|
  {
    retry == [] || plan.blocks[i].itemId in retry
  }

  class DocumentAccumulator {
    const block: Block
    const expectedPieces: nat
    var pieces: map<nat, Part>
    var rejection: Option<string>
    var published: bool

    constructor (block: Block, expectedPieces: nat)
      ensures this.block == block && this.expectedPieces == expectedPieces
      ensures pieces == map[] && rejection == None && !published
    {
      this.block, this.expectedPieces := block, expectedPieces;
      pieces, rejection, published := map[], None, false;
    }

    method Record(order: nat, value: Translation, separator: string)
      modifies this
      ensures pieces == if old(rejection).None? then old(pieces)[order := (value, separator)] else old(pieces)
      ensures rejection == old(rejection) && published == old(published)
    {
      if rejection.None? {
        pieces := pieces[order := (value, separator)];
      }
    }

    method Reject(reason: string)
      modifies this
      ensures rejection == if old(rejection).None? then Some(reason) else old(rejection)
      ensures pieces == old(pieces) && published == old(published)
    {
      if rejection.None? {
        rejection := Some(reason);
      }
    }

    predicate IsComplete()
      reads this
    {
      rejection.Some? || |pieces| == expectedPieces
    }

    /** Right for block `i` of which the first `n` pieces have been sent. */
    ghost predicate Sound(plan: Plan, world: World, i: nat, n: nat)
      requires plan.Valid() && i < |plan.blocks| && n <= |plan.Pieces(i)|
      reads this
    {
      && block == plan.blocks[i] && expectedPieces == |plan.Pieces(i)|
      && (!published ==>
            && rejection == RejectionAfter(plan, world, i, n)
            && (rejection.None? ==> HoldsPieces(plan, world, i, n, pieces)))
    }
  }

  /** The first n pieces of a block, each as it was translated. */
  ghost predicate HoldsPieces(plan: Plan, world: World, i: nat, n: nat, pieces: map<nat, Part>)
    requires plan.Valid() && i < |plan.blocks| && n <= |plan.Pieces(i)|
  {
    && plan.splits[i].Fragments?
    && pieces.Keys == Below(n)
    && forall o | 0 <= o < n :: PieceTranslated(world, plan.Pieces(i)[o], pieces[o])
  }

  lemma HoldsOneMore(plan: Plan, world: World, piece: Piece, pieces: map<nat, Part>, value: Translation)
    requires plan.Valid() && plan.Planned(piece) && world.translate(piece) == Translated(value)
    requires HoldsPieces(plan, world, piece.blockIndex, piece.pieceOrder, pieces)
    ensures HoldsPieces(plan, world, piece.blockIndex, piece.pieceOrder + 1,
                        pieces[piece.pieceOrder := (value, piece.separatorAfter)])
  {
    var n, part := piece.pieceOrder, (value, piece.separatorAfter);
    var more := pieces[n := part];
    OneMoreKey(pieces, n, part);
    assert PieceTranslated(world, plan.Pieces(piece.blockIndex)[n], part);
    hide Plan.Pieces, Below, PieceTranslated;
    forall o | 0 <= o < n + 1
      ensures PieceTranslated(world, plan.Pieces(piece.blockIndex)[o], more[o])
    {
      if o < n {
        assert more[o] == pieces[o];
      }
    }
  }

  lemma OneMoreKey(pieces: map<nat, Part>, n: nat, part: Part)
    requires pieces.Keys == Below(n)
    ensures pieces[n := part].Keys == Below(n + 1)
    ensures forall o | 0 <= o < n :: pieces[n := part][o] == pieces[o]
  {
    assert pieces[n := part].Keys == pieces.Keys + {n};
  }

  function Below(n: nat): (s: set<nat>)
    ensures forall o: nat :: o in s <==> o < n
    ensures |s| == n
  {
    if n == 0 then {} else Below(n - 1) + {n - 1}
  }

  predicate SinkFails(world: World, sent: nat) {
    world.sinkFails(sent)
  }

  datatype PublishOutcome = Sent(update: Update) | Refused

  /** Publishes a complete accumulator: the rejection if there is one, else the
      pieces joined in order and judged as a whole. */
  method PublishDocumentAccumulator(plan: Plan, world: World, accumulator: DocumentAccumulator, ghost i: nat,
                                    ghost n: nat, sent: nat)
    returns (outcome: PublishOutcome)
    requires plan.Valid() && i < |plan.blocks| && n <= |plan.Pieces(i)|
    requires accumulator.Sound(plan, world, i, n) && !accumulator.published && accumulator.IsComplete()
    modifies accumulator
    ensures outcome.Refused? ==> SinkFails(world, sent)
    ensures outcome.Sent? ==>
              accumulator.published && accumulator.Sound(plan, world, i, n)
                && IsTerminal(plan, world, i, outcome.update)
  {
    RejectionStands(plan, world, i, n, |plan.Pieces(i)|);
    if accumulator.rejection.Some? {
      var reason := accumulator.rejection.value;
      accumulator.rejection := None;
      if world.sinkFails(sent) {
        return Refused;
      }
      accumulator.published := true;
      return Sent(Preserved(accumulator.block.itemId, accumulator.block.text, reason));
    }
    assert |accumulator.pieces.Keys| == |accumulator.pieces|;
    ghost var parts := InOrder(accumulator.pieces, n);
    var joined := JoinPieces(accumulator.pieces, accumulator.expectedPieces);
    var judgement := world.judge(accumulator.block.itemId, joined.displayed);
    var update :=
      if judgement.requiresRepair then Preserved(accumulator.block.itemId, accumulator.block.text, JOINED_INVALID)
      else Ready(accumulator.block.itemId, accumulator.block.text, joined.base, judgement.normalized, joined.accepted);
    assert update == JoinedUpdate(world, plan.blocks[i], parts);
    if world.sinkFails(sent) {
      return Refused;
    }
    accumulator.published := true;
    outcome := Sent(update);
  }

  method JoinPieces(pieces: map<nat, Part>, n: nat) returns (joined: Translation)
    requires pieces.Keys == Below(n)
    ensures joined == Join(InOrder(pieces, n))
  {
    var base, displayed, accepted := "", "", false;
    for order := 0 to n
      invariant Translation(base, displayed, accepted) == Join(InOrder(pieces, n)[..order])
    {
      assert order in pieces.Keys;
      var (value, separator) := pieces[order];
      base := base + value.base + separator;
      displayed := displayed + value.displayed + separator;
      accepted := accepted || value.accepted;
      assert InOrder(pieces, n)[..order + 1][..order] == InOrder(pieces, n)[..order];
    }
    assert InOrder(pieces, n)[..n] == InOrder(pieces, n);
    joined := Translation(base, displayed, accepted);
  }

  /** The values of an ordered map with keys below `n`, by ascending key. */
  function InOrder(pieces: map<nat, Part>, n: nat): (parts: seq<Part>)
    requires pieces.Keys == Below(n)
    ensures |parts| == n && forall o | 0 <= o < n :: parts[o] == pieces[o]
  {
    seq(n, o requires 0 <= o < n => assert o in pieces.Keys; pieces[o])
  }

  // ---- Bookkeeping of a run ----

  /** Each update is the terminal one of its block, and no block has two. */
  ghost predicate LogSound(plan: Plan, retry: seq<string>, world: World, log: seq<Update>, owner: seq<nat>)
    requires plan.Valid()
  {
    && |owner| == |log|
    && (forall k | 0 <= k < |log| ::
          && owner[k] < |plan.blocks| && Targeted(plan, retry, owner[k])
          && IsTerminal(plan, world, owner[k], log[k]))
    && (forall j, k | 0 <= j < k < |log| :: owner[j] != owner[k])
  }

  ghost predicate Accounts(plan: Plan, retry: seq<string>, world: World, next: seq<nat>,
                           accs: seq<DocumentAccumulator>, owner: seq<nat>)
    requires plan.Valid() && Frontier(plan, next)
    reads accs
  {
    && |accs| == |plan.blocks|
    && (forall i, j | 0 <= i < j < |accs| :: accs[i] != accs[j])
    && (forall i | 0 <= i < |accs| :: accs[i].Sound(plan, world, i, next[i]))
    && (forall i | 0 <= i < |accs| ::
          accs[i].published <==> (Targeted(plan, retry, i) ==> i in owner))
    && (forall i | 0 <= i < |accs| && i in owner :: CompleteAfter(plan, world, i, next[i]))
  }

  /** A block a publishing pass has to end. */
  predicate IsDue(plan: Plan, retry: seq<string>, world: World, next: seq<nat>, owner: seq<nat>, i: nat)
    requires |plan.splits| == |plan.blocks| == |next| && i < |plan.blocks|
  {
    Targeted(plan, retry, i) && i !in owner && CompleteAfter(plan, world, i, next[i])
  }

  /** The blocks below `n` that a publishing pass has to end, by ascending index. */
  function Due(plan: Plan, retry: seq<string>, world: World, next: seq<nat>, owner: seq<nat>, n: nat): (due: seq<nat>)
    requires |plan.splits| == |plan.blocks| == |next| && n <= |plan.blocks|
    ensures forall i :: i in due <==> 0 <= i < n && IsDue(plan, retry, world, next, owner, i)
  {
    if n == 0 then []
    else
      Due(plan, retry, world, next, owner, n - 1)
      + if IsDue(plan, retry, world, next, owner, n - 1) then [n - 1] else []
  }

  lemma NothingDue(plan: Plan, retry: seq<string>, world: World, next: seq<nat>, owner: seq<nat>)
    requires |plan.splits| == |plan.blocks| == |next|
    ensures Due(plan, retry, world, next, owner, 0) == []
  {
  }

  lemma DueNext(plan: Plan, retry: seq<string>, world: World, next: seq<nat>, owner: seq<nat>, n: nat)
    requires |plan.splits| == |plan.blocks| == |next| && n < |plan.blocks|
    ensures var before := Due(plan, retry, world, next, owner, n);
            && Due(plan, retry, world, next, owner, n + 1)
               == before + (if IsDue(plan, retry, world, next, owner, n) then [n] else [])
            && (IsDue(plan, retry, world, next, owner + before, n) <==> IsDue(plan, retry, world, next, owner, n))
  {
    hide CompleteAfter;
  }

  lemma {:induction false} DueGrows(plan: Plan, retry: seq<string>, world: World, next: seq<nat>, owner: seq<nat>,
                                    n: nat, m: nat)
    requires |plan.splits| == |plan.blocks| == |next| && n <= m <= |plan.blocks|
    ensures Due(plan, retry, world, next, owner, n) <= Due(plan, retry, world, next, owner, m)
    decreases m - n
  {
    hide Due;
    if n < m {
      DueGrows(plan, retry, world, next, owner, n, m - 1);
      DueNext(plan, retry, world, next, owner, m - 1);
    }
  }

  ghost predicate Settled(accs: seq<DocumentAccumulator>)
    reads accs
  {
    forall i | 0 <= i < |accs| :: accs[i].published || !accs[i].IsComplete()
  }

  lemma LogGrows(plan: Plan, retry: seq<string>, world: World, log: seq<Update>, owner: seq<nat>, i: nat,
                 update: Update)
    requires plan.Valid() && LogSound(plan, retry, world, log, owner)
    requires i < |plan.blocks| && Targeted(plan, retry, i) && i !in owner && IsTerminal(plan, world, i, update)
    ensures LogSound(plan, retry, world, log + [update], owner + [i])
  {
  }

  /** While a block is unpublished its accumulator is complete when it should be. */
  lemma CompleteMeans(accumulator: DocumentAccumulator, plan: Plan, world: World, i: nat, n: nat)
    requires plan.Valid() && i < |plan.blocks| && n <= |plan.Pieces(i)|
    requires accumulator.Sound(plan, world, i, n) && !accumulator.published
    ensures accumulator.IsComplete() <==> CompleteAfter(plan, world, i, n)
  {
    hide RejectionAfter, BlockPieces;
    if accumulator.rejection.None? {
      assert |accumulator.pieces.Keys| == |accumulator.pieces|;
    }
  }

  /** Between passes just the complete blocks have been ended. */
  lemma SettledMeans(plan: Plan, retry: seq<string>, world: World, next: seq<nat>, accs: seq<DocumentAccumulator>,
                     owner: seq<nat>, i: nat)
    requires plan.Valid() && Frontier(plan, next) && Accounts(plan, retry, world, next, accs, owner) && Settled(accs)
    requires i < |plan.blocks| && Targeted(plan, retry, i)
    ensures i in owner <==> CompleteAfter(plan, world, i, next[i])
  {
    hide CompleteAfter, DocumentAccumulator.Sound;
    if !accs[i].published {
      CompleteMeans(accs[i], plan, world, i, next[i]);
    }
  }

  /** The step of a publishing pass for one accumulator. */
  method PublishIfReady(plan: Plan, retry: seq<string>, world: World, accs: seq<DocumentAccumulator>, i: nat,
                        log0: seq<Update>, ghost next: seq<nat>, ghost owner0: seq<nat>)
    returns (ok: bool, log: seq<Update>, ghost owner: seq<nat>)
    requires plan.Valid() && Frontier(plan, next) && i < |accs|
    requires Accounts(plan, retry, world, next, accs, owner0) && LogSound(plan, retry, world, log0, owner0)
    modifies accs[i]
    ensures LogSound(plan, retry, world, log, owner)
    ensures ok ==> Accounts(plan, retry, world, next, accs, owner) && (accs[i].published || !accs[i].IsComplete())
    ensures ok ==> owner == owner0 + if IsDue(plan, retry, world, next, owner0, i) then [i] else []
    ensures !ok ==> owner == owner0 && SinkFails(world, |log|)
  {
    hide DocumentAccumulator.Sound, IsTerminal, LogSound, CompleteAfter;
    log, owner := log0, owner0;
    if !accs[i].published {
      CompleteMeans(accs[i], plan, world, i, next[i]);
    }
    if !accs[i].published && accs[i].IsComplete() {
      var outcome := PublishDocumentAccumulator(plan, world, accs[i], i, next[i], |log|);
      match outcome
      case Refused => return false, log, owner;
      case Sent(update) =>
        LogGrows(plan, retry, world, log, owner, i, update);
        log, owner := log + [update], owner + [i];
    }
    ok := true;
  }

  /** One publishing pass over all accumulators: it ends the blocks that are due,
      by ascending index, up to a failure of the sink. */
  method PublishReadyDocumentBlocks(plan: Plan, retry: seq<string>, world: World, accs: seq<DocumentAccumulator>,
                                    log0: seq<Update>, ghost next: seq<nat>, ghost owner0: seq<nat>)
    returns (ok: bool, log: seq<Update>, ghost owner: seq<nat>)
    requires plan.Valid() && Frontier(plan, next)
    requires Accounts(plan, retry, world, next, accs, owner0) && LogSound(plan, retry, world, log0, owner0)
    modifies accs
    ensures LogSound(plan, retry, world, log, owner)
    ensures ok ==> Accounts(plan, retry, world, next, accs, owner) && Settled(accs)
    ensures owner <= owner0 + Due(plan, retry, world, next, owner0, |plan.blocks|)
    ensures ok ==> owner == owner0 + Due(plan, retry, world, next, owner0, |plan.blocks|)
    ensures !ok ==> SinkFails(world, |log|)
  {
    hide DocumentAccumulator.Sound, LogSound, Due, IsDue;
    log, owner := log0, owner0;
    NothingDue(plan, retry, world, next, owner0);
    for i := 0 to |accs|
      invariant Accounts(plan, retry, world, next, accs, owner) && LogSound(plan, retry, world, log, owner)
      invariant forall j | 0 <= j < i :: accs[j].published || !accs[j].IsComplete()
      invariant owner == owner0 + Due(plan, retry, world, next, owner0, i)
    {
      DueNext(plan, retry, world, next, owner0, i);
      DueGrows(plan, retry, world, next, owner0, i, |plan.blocks|);
      hide Accounts;
      ok, log, owner := PublishIfReady(plan, retry, world, accs, i, log, next, owner);
      if !ok {
        return;
      }
    }
    ok := true;
  }

  /** The outcome of one translated piece reaches its block's accumulator. */
  method Deliver(plan: Plan, world: World, piece: Piece, accumulator: DocumentAccumulator) returns (ok: bool)
    requires plan.Valid() && plan.Planned(piece)
    requires accumulator.Sound(plan, world, piece.blockIndex, piece.pieceOrder)
    modifies accumulator
    ensures accumulator.published == old(accumulator.published)
    ensures ok <==> !world.translate(piece).Aborted?
    ensures ok ==> accumulator.Sound(plan, world, piece.blockIndex, piece.pieceOrder + 1)
  {
    RejectionNext(plan, world, piece.blockIndex, piece.pieceOrder);
    hide BlockPieces, JoinedUpdate, IsTerminal, HoldsPieces, RejectionAfter;
    match world.translate(piece) {
      case Translated(value) =>
        if !accumulator.published && accumulator.rejection.None? {
          HoldsOneMore(plan, world, piece, accumulator.pieces, value);
        }
        accumulator.Record(piece.pieceOrder, value, piece.separatorAfter);
      case Rejected(reason) =>
        accumulator.Reject(reason);
      case Omitted =>
        accumulator.Reject(OMITTED);
      case Aborted => return false;
    }
    ok := true;
  }

  // ---- The loop ----

  datatype Waited = Active(focus: Focus) | Stopped | StillWaiting

  method WaitForActiveDocument(world: World, t0: nat, horizon: nat) returns (waited: Waited, t: nat)
    ensures waited.Active? ==> t > t0 && waited.focus == world.focus(t - 1) && waited.focus.active
    ensures t >= t0 && forall k | t0 <= k < t :: !world.cancelled(k)
    ensures forall k | t0 <= k < (if waited.Active? then t - 1 else t) :: !world.focus(k).active
    ensures waited.Stopped? ==> world.cancelled(t)
    ensures waited.StillWaiting? ==> t >= horizon && !world.cancelled(t) && !world.focus(t).active
  {
    t := t0;
    while true
      invariant t0 <= t
      invariant forall k | t0 <= k < t :: !world.cancelled(k) && !world.focus(k).active
      decreases horizon - t
    {
      if world.cancelled(t) {
        return Stopped, t;
      }
      var focus := world.focus(t);
      if focus.active {
        return Active(focus), t + 1;
      }
      if t >= horizon {
        return StillWaiting, t;
      }
      t := t + 1;
    }
  }

  lemma QueuePermuted(plan: Plan, next: seq<nat>, queue: seq<Piece>, other: seq<Piece>)
    requires IsQueue(plan, next, queue) && multiset(queue) == multiset(other)
    ensures IsQueue(plan, next, other)
  {
    NoRepeatsInMultiset(queue, other);
    forall p
      ensures p in other <==> Unsent(plan, next, p)
    {
      assert p in other <==> p in multiset(other);
    }
  }

  /** Taking a batch off the sorted queue: the rest and the batch together are
      the queue again, and the batch starts with its block's next piece. */
  lemma BatchTaken(plan: Plan, next: seq<nat>, ordered: seq<Piece>, start: nat, batch: seq<Piece>, rest: seq<Piece>)
    requires IsQueue(plan, next, ordered)
    requires forall i, j | 0 <= i < j < |ordered| ::
               KeyAtMost(ordered[i], ordered[j]) && !KeyAtMost(ordered[j], ordered[i])
    requires start + |batch| <= |ordered| && batch == ordered[start..start + |batch|]
    requires rest == ordered[..start] + ordered[start + |batch|..]
    requires batch != [] ==> forall i | 0 <= i < start :: ordered[i].blockIndex != ordered[start].blockIndex
    ensures IsQueue(plan, next, rest + batch) && |rest| + |batch| == |ordered|
    ensures batch != [] ==> batch[0].blockIndex < |next| && batch[0].pieceOrder == next[batch[0].blockIndex]
  {
    hide *;
    WindowMoved(plan, next, ordered, start, start + |batch|);
    if batch != [] {
      FirstQueuedIsNext(plan, next, ordered, start);
    }
  }

  lemma WindowMoved(plan: Plan, next: seq<nat>, ordered: seq<Piece>, lo: nat, hi: nat)
    requires lo <= hi <= |ordered| && IsQueue(plan, next, ordered)
    ensures IsQueue(plan, next, (ordered[..lo] + ordered[hi..]) + ordered[lo..hi])
  {
    hide *;
    MovedToTheEnd(ordered, lo, hi);
    QueuePermuted(plan, next, ordered, (ordered[..lo] + ordered[hi..]) + ordered[lo..hi]);
  }

  lemma MovedToTheEnd<T>(s: seq<T>, lo: nat, hi: nat)
    requires lo <= hi <= |s|
    ensures multiset(s) == multiset((s[..lo] + s[hi..]) + s[lo..hi])
  {
    assert s == s[..lo] + s[lo..hi] + s[hi..];
  }

  /** Sending the head of a batch: the tail starts with its block's next piece too. */
  lemma HeadSent(plan: Plan, next: seq<nat>, rest: seq<Piece>, batch: seq<Piece>, k: nat)
    requires k < |batch| && IsQueue(plan, next, rest + batch[k..])
    requires batch[k].blockIndex < |next| && batch[k].pieceOrder == next[batch[k].blockIndex]
    requires k + 1 < |batch| ==> Follows(batch[k], batch[k + 1])
    ensures plan.Planned(batch[k])
    ensures var next' := next[batch[k].blockIndex := next[batch[k].blockIndex] + 1];
            && IsQueue(plan, next', rest + batch[k + 1..])
            && (k + 1 < |batch| ==>
                batch[k + 1].blockIndex < |next'| && batch[k + 1].pieceOrder == next'[batch[k + 1].blockIndex])
  {
    var piece := batch[k];
    var next' := next[piece.blockIndex := next[piece.blockIndex] + 1];
    assert rest + batch[k..] == rest + [piece] + batch[k + 1..];
    assert (rest + batch[k..])[|rest|] == piece;
    assert Unsent(plan, next, piece);
    SendNext(plan, next, rest, piece, batch[k + 1..]);
    if k + 1 < |batch| {
      assert (rest + batch[k + 1..])[|rest|] == batch[k + 1];
      assert Unsent(plan, next', batch[k + 1]);
    }
  }
}
