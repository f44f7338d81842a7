// How the document loop picks the next batch of pieces
// (pipeline_adapter.rs, take_next_document_batch).
module DocumentBatches {
  import opened Machine
  import opened Sorting

  const BATCH_MAX: nat := 6
  const BATCH_TOKEN_BUDGET: nat := 1800

  datatype Piece = Piece(
    pieceId: string,
    blockIndex: nat,
    pieceOrder: nat,
    sourceText: string,
    separatorAfter: string,
    tokenCount: nat)

  datatype Reason = Visible | InOrder

  predicate KeyAtMost(p: Piece, q: Piece) {
    p.blockIndex < q.blockIndex || (p.blockIndex == q.blockIndex && p.pieceOrder <= q.pieceOrder)
  }

  predicate Follows(previous: Piece, piece: Piece) {
    || (piece.blockIndex == previous.blockIndex && piece.pieceOrder == previous.pieceOrder + 1)
    || (piece.blockIndex == previous.blockIndex + 1 && piece.pieceOrder == 0)
  }

  function TokenTotal(pieces: seq<Piece>): nat {
    if pieces == [] then 0 else TokenTotal(pieces[..|pieces| - 1]) + pieces[|pieces| - 1].tokenCount
  }

  predicate HasPieceOf(pieces: seq<Piece>, block: nat) {
    exists p | p in pieces :: p.blockIndex == block
  }

  /** `block` is the first visible one that still has pieces left. */
  ghost predicate IsPriority(remaining: seq<Piece>, itemIds: seq<string>, visible: set<string>, block: nat) {
    && block < |itemIds| && itemIds[block] in visible && HasPieceOf(remaining, block)
    && forall i | 0 <= i < block :: !(itemIds[i] in visible && HasPieceOf(remaining, i))
  }

  method PriorityBlock(remaining: seq<Piece>, itemIds: seq<string>, visible: set<string>) returns (block: Option<nat>)
    ensures block.Some? ==> IsPriority(remaining, itemIds, visible, block.value)
    ensures block.None? ==> forall i | 0 <= i < |itemIds| :: !(itemIds[i] in visible && HasPieceOf(remaining, i))
  {
    for i := 0 to |itemIds|
      invariant forall k | 0 <= k < i :: !(itemIds[k] in visible && HasPieceOf(remaining, k))
    {
      if itemIds[i] in visible && HasPieceOf(remaining, i) {
        return Some(i);
      }
    }
    block := None;
  }

  method FirstOf(ordered: seq<Piece>, block: nat) returns (start: nat)
    requires HasPieceOf(ordered, block)
    ensures start < |ordered| && ordered[start].blockIndex == block
    ensures forall i | 0 <= i < start :: ordered[i].blockIndex != block
  {
    start := 0;
    while ordered[start].blockIndex != block
      invariant start < |ordered|
      invariant forall i | 0 <= i < start :: ordered[i].blockIndex != block
      decreases |ordered| - start
    {
      var p :| p in ordered && p.blockIndex == block;
      start := start + 1;
    }
  }

  /** May `piece` join a batch that holds `selected` so far? */
  predicate MayJoin(selected: seq<Piece>, piece: Piece, itemIds: seq<string>, visible: set<string>,
                    isolate: bool, priority: Option<nat>)
    requires piece.blockIndex < |itemIds|
  {
    && (priority.Some? ==> itemIds[piece.blockIndex] in visible)
    && (isolate && priority.Some? ==> piece.blockIndex == priority.value)
    && (selected != [] ==>
          && Follows(selected[|selected| - 1], piece)
          && |selected| < BATCH_MAX
          && TokenTotal(selected) + piece.tokenCount <= BATCH_TOKEN_BUDGET)
  }

  ghost predicate AllMayJoin(ordered: seq<Piece>, start: nat, size: nat, itemIds: seq<string>,
                             visible: set<string>, isolate: bool, priority: Option<nat>)
    requires start + size <= |ordered|
    requires forall p | p in ordered :: p.blockIndex < |itemIds|
  {
    forall k | start <= k < start + size ::
      MayJoin(ordered[start..k], ordered[k], itemIds, visible, isolate, priority)
  }

  /** The batch is the run of the ordered queue from `start` on to which each
      piece was allowed to join, up to the first one that was not. */
  ghost predicate IsBatch(ordered: seq<Piece>, start: nat, batch: seq<Piece>, itemIds: seq<string>,
                          visible: set<string>, isolate: bool, priority: Option<nat>)
    requires forall p | p in ordered :: p.blockIndex < |itemIds|
  {
    && start + |batch| <= |ordered|
    && batch == ordered[start..start + |batch|]
    && AllMayJoin(ordered, start, |batch|, itemIds, visible, isolate, priority)
    && (start + |batch| < |ordered| ==>
          !MayJoin(batch, ordered[start + |batch|], itemIds, visible, isolate, priority))
  }

  function WithoutIds(pieces: seq<Piece>, ids: set<string>): seq<Piece> {
    if pieces == [] then []
    else (if pieces[0].pieceId in ids then [] else [pieces[0]]) + WithoutIds(pieces[1..], ids)
  }

  ghost predicate DistinctIds(pieces: seq<Piece>) {
    forall i, j | 0 <= i < j < |pieces| :: pieces[i].pieceId != pieces[j].pieceId
  }

  lemma {:induction false} WithoutIdsConcat(a: seq<Piece>, b: seq<Piece>, ids: set<string>)
    ensures WithoutIds(a + b, ids) == WithoutIds(a, ids) + WithoutIds(b, ids)
  {
    if a == [] {
      assert a + b == b;
    } else {
      assert (a + b)[1..] == a[1..] + b;
      WithoutIdsConcat(a[1..], b, ids);
    }
  }

  lemma {:induction false} WithoutNone(a: seq<Piece>, ids: set<string>)
    requires forall p | p in a :: p.pieceId !in ids
    ensures WithoutIds(a, ids) == a
  {
    if a != [] {
      WithoutNone(a[1..], ids);
    }
  }

  lemma {:induction false} WithoutAll(a: seq<Piece>, ids: set<string>)
    requires forall p | p in a :: p.pieceId in ids
    ensures WithoutIds(a, ids) == []
  {
    if a != [] {
      WithoutAll(a[1..], ids);
    }
  }

  lemma WithoutMiddle(before: seq<Piece>, window: seq<Piece>, after: seq<Piece>, ids: set<string>)
    requires forall p | p in window :: p.pieceId in ids
    requires forall p | p in before || p in after :: p.pieceId !in ids
    ensures WithoutIds((before + window) + after, ids) == before + after
  {
    WithoutIdsConcat(before + window, after, ids);
    WithoutIdsConcat(before, window, ids);
    WithoutAll(window, ids);
    WithoutNone(before, ids);
    WithoutNone(after, ids);
    assert before + [] == before;
  }

  function IdsOf(pieces: seq<Piece>): (ids: set<string>)
    ensures forall p | p in pieces :: p.pieceId in ids
    ensures forall id | id in ids :: exists p | p in pieces :: p.pieceId == id
  {
    set p | p in pieces :: p.pieceId
  }

  /** With distinct ids, dropping a window's ids drops just the window. */
  lemma WithoutWindow(ordered: seq<Piece>, start: nat, size: nat)
    requires DistinctIds(ordered) && start + size <= |ordered|
    ensures WithoutIds(ordered, IdsOf(ordered[start..start + size])) == ordered[..start] + ordered[start + size..]
  {
    hide WithoutIds;
    hide IdsOf;
    var before, window, after := ordered[..start], ordered[start..start + size], ordered[start + size..];
    assert ordered == (before + window) + after;
    forall p | p in before || p in after
      ensures p.pieceId !in IdsOf(window)
    {
      OutsideWindow(ordered, start, size, p);
    }
    WithoutMiddle(before, window, after, IdsOf(window));
  }

  lemma OutsideWindow(ordered: seq<Piece>, start: nat, size: nat, p: Piece)
    requires DistinctIds(ordered) && start + size <= |ordered|
    requires p in ordered[..start] || p in ordered[start + size..]
    ensures forall q | q in ordered[start..start + size] :: q.pieceId != p.pieceId
  {
    var i :| (0 <= i < start || start + size <= i < |ordered|) && ordered[i] == p;
    forall q | q in ordered[start..start + size]
      ensures q.pieceId != p.pieceId
    {
      var j :| start <= j < start + size && ordered[j] == q;
    }
  }

  lemma KeyAtMostIsTotal()
    ensures TotalPreorder(KeyAtMost)
  {
  }

  lemma NoTokens()
    ensures TokenTotal([]) == 0
  {
  }

  lemma TokenTotalOfOneMore(pieces: seq<Piece>, piece: Piece)
    ensures TokenTotal(pieces + [piece]) == TokenTotal(pieces) + piece.tokenCount
  {
    assert (pieces + [piece])[..|pieces|] == pieces;
  }

  lemma NoneYet(ordered: seq<Piece>, start: nat, itemIds: seq<string>,
                visible: set<string>, isolate: bool, priority: Option<nat>)
    requires start <= |ordered|
    requires forall p | p in ordered :: p.blockIndex < |itemIds|
    ensures AllMayJoin(ordered, start, 0, itemIds, visible, isolate, priority)
  {
  }

  lemma OneMoreJoins(ordered: seq<Piece>, start: nat, size: nat, itemIds: seq<string>,
                     visible: set<string>, isolate: bool, priority: Option<nat>)
    requires start + size < |ordered|
    requires forall p | p in ordered :: p.blockIndex < |itemIds|
    requires AllMayJoin(ordered, start, size, itemIds, visible, isolate, priority)
    requires MayJoin(ordered[start..start + size], ordered[start + size], itemIds, visible, isolate, priority)
    ensures AllMayJoin(ordered, start, size + 1, itemIds, visible, isolate, priority)
  {
  }

  method SelectBatch(ordered: seq<Piece>, start: nat, itemIds: seq<string>, visible: set<string>,
                     isolate: bool, priority: Option<nat>) returns (batch: seq<Piece>)
    requires start <= |ordered|
    requires forall p | p in ordered :: p.blockIndex < |itemIds|
    ensures IsBatch(ordered, start, batch, itemIds, visible, isolate, priority)
    ensures |batch| <= BATCH_MAX
    ensures |batch| > 1 ==> TokenTotal(batch) <= BATCH_TOKEN_BUDGET
  {
    hide TokenTotal;
    hide AllMayJoin;
    batch := [];
    var tokens := 0;
    NoTokens();
    assert AllMayJoin(ordered, start, 0, itemIds, visible, isolate, priority) by {
      NoneYet(ordered, start, itemIds, visible, isolate, priority);
    }
    for k := start to |ordered|
      invariant |batch| == k - start && batch == ordered[start..k]
      invariant tokens == Least(TokenTotal(batch), U64_MAX)
      invariant AllMayJoin(ordered, start, |batch|, itemIds, visible, isolate, priority)
      invariant |batch| <= BATCH_MAX
      invariant |batch| > 1 ==> TokenTotal(batch) <= BATCH_TOKEN_BUDGET
    {
      var piece := ordered[k];
      if priority.Some? && itemIds[piece.blockIndex] !in visible {
        return;
      }
      if isolate && priority.Some? && piece.blockIndex != priority.value {
        return;
      }
      if batch != [] {
        var previous := batch[|batch| - 1];
        var contiguousPiece := piece.blockIndex == previous.blockIndex && piece.pieceOrder == previous.pieceOrder + 1;
        var contiguousBlock := piece.blockIndex == previous.blockIndex + 1 && piece.pieceOrder == 0;
        if !contiguousPiece && !contiguousBlock {
          return;
        }
        if |batch| >= BATCH_MAX || SaturatingAdd(tokens, piece.tokenCount) > BATCH_TOKEN_BUDGET {
          return;
        }
      }
      assert MayJoin(ordered[start..k], piece, itemIds, visible, isolate, priority);
      OneMoreJoins(ordered, start, |batch|, itemIds, visible, isolate, priority);
      tokens := SaturatingAdd(tokens, piece.tokenCount);
      TokenTotalOfOneMore(batch, piece);
      batch := batch + [piece];
    }
  }

  lemma SamePieces(s: seq<Piece>, t: seq<Piece>, itemIds: seq<string>, visible: set<string>)
    requires forall p :: p in s <==> p in t
    ensures forall i :: HasPieceOf(s, i) <==> HasPieceOf(t, i)
    ensures forall i :: IsPriority(s, itemIds, visible, i) <==> IsPriority(t, itemIds, visible, i)
  {
    forall i
      ensures HasPieceOf(s, i) <==> HasPieceOf(t, i)
    {
    }
  }

  lemma PriorityHasPieces(s: seq<Piece>, itemIds: seq<string>, visible: set<string>, block: nat)
    requires IsPriority(s, itemIds, visible, block)
    ensures HasPieceOf(s, block)
  {
  }

  lemma BatchIsNotEmpty(ordered: seq<Piece>, start: nat, batch: seq<Piece>, itemIds: seq<string>,
                        visible: set<string>, isolate: bool, priority: Option<nat>)
    requires forall p | p in ordered :: p.blockIndex < |itemIds|
    requires IsBatch(ordered, start, batch, itemIds, visible, isolate, priority)
    requires ordered != [] ==> start < |ordered|
    requires priority.Some? ==>
               start < |ordered| && ordered[start].blockIndex == priority.value
               && IsPriority(ordered, itemIds, visible, priority.value)
    ensures ordered != [] ==> batch != []
    ensures start + |batch| <= |ordered| && batch == ordered[start..start + |batch|]
  {
    if ordered != [] {
      assert MayJoin([], ordered[start], itemIds, visible, isolate, priority);
    }
  }

  /** Takes the next batch out of the queue, which is sorted in place. */
  method TakeNextDocumentBatch(remaining: seq<Piece>, itemIds: seq<string>, visible: set<string>,
                               isolateFirstVisible: bool)
    returns (batch: seq<Piece>, rest: seq<Piece>, reason: Reason, ghost start: nat, ghost priority: Option<nat>)
    requires forall p | p in remaining :: p.blockIndex < |itemIds|
    ensures forall p :: p in Sort(remaining, KeyAtMost) <==> p in remaining
    ensures reason.Visible? <==> priority.Some?
    ensures priority.Some? ==> IsPriority(remaining, itemIds, visible, priority.value)
    ensures priority.None? ==> forall i | 0 <= i < |itemIds| :: !(itemIds[i] in visible && HasPieceOf(remaining, i))
    ensures var ordered := Sort(remaining, KeyAtMost);
            && IsBatch(ordered, start, batch, itemIds, visible, isolateFirstVisible, priority)
            && (if priority.Some?
                then start < |ordered| && ordered[start].blockIndex == priority.value
                     && forall i | 0 <= i < start :: ordered[i].blockIndex != priority.value
                else start == 0)
            && (DistinctIds(ordered) ==> rest == ordered[..start] + ordered[start + |batch|..])
    ensures remaining != [] ==> batch != []
    ensures |batch| <= BATCH_MAX
    ensures |batch| > 1 ==> TokenTotal(batch) <= BATCH_TOKEN_BUDGET
  {
    hide *;
    var ordered := Sort(remaining, KeyAtMost);
    SortElements(remaining, KeyAtMost);
    SamePieces(remaining, ordered, itemIds, visible);
    var priorityBlock := PriorityBlock(ordered, itemIds, visible);
    var from := 0;
    if priorityBlock.Some? {
      from := FirstOf(ordered, priorityBlock.value)
        by { PriorityHasPieces(ordered, itemIds, visible, priorityBlock.value); }
    }
    batch := SelectBatch(ordered, from, itemIds, visible, isolateFirstVisible, priorityBlock);
    BatchIsNotEmpty(ordered, from, batch, itemIds, visible, isolateFirstVisible, priorityBlock);
    rest := WithoutIds(ordered, IdsOf(batch));
    if DistinctIds(ordered) {
      WithoutWindow(ordered, from, |batch|);
    }
    reason := if priorityBlock.Some? then Visible else InOrder;
    start, priority := from, priorityBlock;
  }
}
