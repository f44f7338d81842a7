// The plan of a document job: the pieces of each block in order, the raw
// context spans around them, and which pieces are still to be sent.
module DocumentPlan {
  import opened Machine
  import opened Sorting
  import opened Text
  import opened DocumentBatches
  import opened NeighborContext

  datatype Fragment = Fragment(text: string, separatorAfter: string, tokenCount: nat)

  /** What splitting one block yields; the tokens of an unsplittable block are
      those of its whole text, or more than the context budget if unknown. */
  datatype Split = Fragments(fragments: seq<Fragment>) | Unsplittable(reason: string, tokenCount: nat)

  datatype Block = Block(itemId: string, text: string)

  function PieceId(itemId: string, order: nat): string {
    itemId + "::" + Decimal(order)
  }

  /** The numeral is all that follows the last colon. */
  lemma NumeralAtMost(a: string, m: nat, b: string, n: nat)
    requires PieceId(a, m) == PieceId(b, n)
    ensures |Decimal(n)| <= |Decimal(m)|
  {
    var id := PieceId(a, m);
    var x, y := Decimal(m), Decimal(n);
    assert id == (a + "::") + x == (b + "::") + y;
    forall k | |id| - |y| <= k < |id|
      ensures id[k] != ':'
    {
      assert id[k] == y[k - (|id| - |y|)];
      assert y[k - (|id| - |y|)] in y;
    }
    assert id[|id| - |x| - 1] == ':';
  }

  /** Ids do not clash, even when an item id itself looks like a piece id. */
  lemma PieceIdsAreDistinct(a: string, m: nat, b: string, n: nat)
    requires PieceId(a, m) == PieceId(b, n)
    ensures a == b && m == n
  {
    NumeralAtMost(a, m, b, n);
    NumeralAtMost(b, n, a, m);
    var id, size := PieceId(a, m), |Decimal(m)|;
    assert id == (a + "::") + Decimal(m) == (b + "::") + Decimal(n);
    assert Decimal(m) == id[|id| - size..] == Decimal(n);
    DecimalInjective(m, n);
    assert a == id[..|a|] && b == id[..|b|];
  }

  function BlockPieces(index: nat, itemId: string, split: Split): (pieces: seq<Piece>)
    ensures split.Unsplittable? ==> pieces == []
    ensures split.Fragments? ==> |pieces| == |split.fragments|
    ensures forall o | 0 <= o < |pieces| :: pieces[o].blockIndex == index && pieces[o].pieceOrder == o
                                            && pieces[o].pieceId == PieceId(itemId, o)
  {
    if split.Unsplittable? then []
    else
      seq(|split.fragments|, o requires 0 <= o < |split.fragments| =>
        var f := split.fragments[o];
        Piece(PieceId(itemId, o), index, o, f.text, f.separatorAfter, f.tokenCount))
  }

  function SpanOf(piece: Piece): Span {
    Span(Some(piece.pieceId), piece.sourceText, piece.separatorAfter, piece.tokenCount)
  }

  /** A block kept in the source language still occupies its place. */
  function BlockSpans(index: nat, block: Block, split: Split): (spans: seq<Span>)
    ensures split.Unsplittable? ==> |spans| == 1
  {
    match split
    case Unsplittable(_, tokens) => [Span(None, block.text, "", tokens)]
    case Fragments(_) =>
      var pieces := BlockPieces(index, block.itemId, split);
      seq(|pieces|, o requires 0 <= o < |pieces| => SpanOf(pieces[o]))
  }

  datatype Plan = Plan(blocks: seq<Block>, splits: seq<Split>) {
    ghost predicate Valid() {
      && |splits| == |blocks|
      && forall i, j | 0 <= i < j < |blocks| :: blocks[i].itemId != blocks[j].itemId
    }

    function Pieces(i: nat): seq<Piece>
      requires |splits| == |blocks| && i < |blocks|
    {
      BlockPieces(i, blocks[i].itemId, splits[i])
    }

    /** The context plan of the first `n` blocks. */
    function Spans(n: nat): seq<Span>
      requires |splits| == |blocks| && n <= |blocks|
    {
      if n == 0 then [] else Spans(n - 1) + BlockSpans(n - 1, blocks[n - 1], splits[n - 1])
    }

    function ContextPlan(): seq<Span>
      requires |splits| == |blocks|
    {
      Spans(|blocks|)
    }

    function ItemIds(): (ids: seq<string>)
      ensures |ids| == |blocks| && forall i | 0 <= i < |blocks| :: ids[i] == blocks[i].itemId
    {
      seq(|blocks|, i requires 0 <= i < |blocks| => blocks[i].itemId)
    }

    predicate Planned(p: Piece)
      requires |splits| == |blocks|
    {
      p.blockIndex < |blocks| && p.pieceOrder < |Pieces(p.blockIndex)| && Pieces(p.blockIndex)[p.pieceOrder] == p
    }
  }

  lemma PlannedIdsAreDistinct(plan: Plan, p: Piece, q: Piece)
    requires plan.Valid() && plan.Planned(p) && plan.Planned(q) && p.pieceId == q.pieceId
    ensures p == q
  {
    PieceIdsAreDistinct(plan.blocks[p.blockIndex].itemId, p.pieceOrder, plan.blocks[q.blockIndex].itemId, q.pieceOrder);
  }

  // ---- What is still to be sent ----

  ghost predicate Frontier(plan: Plan, next: seq<nat>)
    requires plan.Valid()
  {
    |next| == |plan.blocks| && forall i | 0 <= i < |next| :: next[i] <= |plan.Pieces(i)|
  }

  /** In each block the pieces from `next` on: a suffix of its pieces. */
  ghost predicate Unsent(plan: Plan, next: seq<nat>, p: Piece)
    requires plan.Valid() && Frontier(plan, next)
  {
    plan.Planned(p) && next[p.blockIndex] <= p.pieceOrder
  }

  ghost predicate IsQueue(plan: Plan, next: seq<nat>, queue: seq<Piece>) {
    && plan.Valid() && Frontier(plan, next)
    && (forall p :: p in queue <==> Unsent(plan, next, p))
    && (forall i, j | 0 <= i < j < |queue| :: queue[i] != queue[j])
  }

  lemma NoRepeatsInMultiset<T>(s: seq<T>, t: seq<T>)
    requires multiset(s) == multiset(t)
    requires forall i, j | 0 <= i < j < |s| :: s[i] != s[j]
    ensures forall i, j | 0 <= i < j < |t| :: t[i] != t[j]
  {
    forall i, j | 0 <= i < j < |t|
      ensures t[i] != t[j]
    {
      if t[i] == t[j] {
        var x := t[i];
        assert t == t[..i] + [x] + t[i + 1..j] + [x] + t[j + 1..];
        assert multiset(s)[x] >= 2;
        OccursOnce(s, x);
      }
    }
  }

  lemma {:induction false} OccursOnce<T>(s: seq<T>, x: T)
    requires forall i, j | 0 <= i < j < |s| :: s[i] != s[j]
    ensures multiset(s)[x] <= 1
  {
    if s != [] {
      assert s == [s[0]] + s[1..];
      OccursOnce(s[1..], x);
      assert forall k | 0 <= k < |s[1..]| :: s[1..][k] == s[k + 1];
      assert s[0] !in s[1..];
    }
  }

  /** Sorting the queue puts it in strict document order. */
  lemma SortedQueue(plan: Plan, next: seq<nat>, queue: seq<Piece>)
    requires IsQueue(plan, next, queue)
    ensures var ordered := Sort(queue, KeyAtMost);
            && IsQueue(plan, next, ordered) && DistinctIds(ordered)
            && forall i, j | 0 <= i < j < |ordered| ::
                 KeyAtMost(ordered[i], ordered[j]) && !KeyAtMost(ordered[j], ordered[i])
  {
    var ordered := Sort(queue, KeyAtMost);
    KeyAtMostIsTotal();
    SortIsOrdered(queue, KeyAtMost);
    SortElements(queue, KeyAtMost);
    NoRepeatsInMultiset(queue, ordered);
    forall i, j | 0 <= i < j < |ordered|
      ensures KeyAtMost(ordered[i], ordered[j]) && !KeyAtMost(ordered[j], ordered[i])
      ensures ordered[i].pieceId != ordered[j].pieceId
    {
      var p, q := ordered[i], ordered[j];
      assert Unsent(plan, next, p) && Unsent(plan, next, q) && p != q;
      if p.pieceId == q.pieceId {
        PlannedIdsAreDistinct(plan, p, q);
      }
    }
  }

  /** The first queued piece of a block is the block's next one. */
  lemma FirstQueuedIsNext(plan: Plan, next: seq<nat>, ordered: seq<Piece>, start: nat)
    requires IsQueue(plan, next, ordered) && start < |ordered|
    requires forall i, j | 0 <= i < j < |ordered| ::
               KeyAtMost(ordered[i], ordered[j]) && !KeyAtMost(ordered[j], ordered[i])
    requires forall i | 0 <= i < start :: ordered[i].blockIndex != ordered[start].blockIndex
    ensures ordered[start].blockIndex < |next| && ordered[start].pieceOrder == next[ordered[start].blockIndex]
  {
    var p := ordered[start];
    assert Unsent(plan, next, p);
    assert next[p.blockIndex] < |plan.Pieces(p.blockIndex)|;
    var first := plan.Pieces(p.blockIndex)[next[p.blockIndex]];
    assert Unsent(plan, next, first);
    var k :| 0 <= k < |ordered| && ordered[k] == first;
    assert k >= start;
  }

  /** Sending a block's next piece leaves the rest of the queue. */
  lemma SendNext(plan: Plan, next: seq<nat>, before: seq<Piece>, piece: Piece, after: seq<Piece>)
    requires IsQueue(plan, next, before + [piece] + after)
    requires piece.blockIndex < |next| && piece.pieceOrder == next[piece.blockIndex]
    ensures IsQueue(plan, next[piece.blockIndex := next[piece.blockIndex] + 1], before + after)
  {
    var all := before + [piece] + after;
    var left := before + after;
    assert all[|before|] == piece;
    assert Unsent(plan, next, piece);
    var next' := next[piece.blockIndex := next[piece.blockIndex] + 1];
    forall i, j | 0 <= i < j < |left|
      ensures left[i] != left[j]
    {
      var i' := if i < |before| then i else i + 1;
      var j' := if j < |before| then j else j + 1;
      assert all[i'] == left[i] && all[j'] == left[j];
    }
    forall p
      ensures p in left <==> Unsent(plan, next', p)
    {
      assert p in all <==> p in left || p == piece;
      if p in left {
        var i :| 0 <= i < |left| && left[i] == p;
        assert all[if i < |before| then i else i + 1] == p;
        assert p != piece;
      }
    }
  }

  // ---- Windows of the context plan ----

  function Offset(plan: Plan, n: nat): nat
    requires plan.Valid() && n <= |plan.blocks|
  {
    |plan.Spans(n)|
  }

  /** Where a piece stands in the context plan. */
  function Place(plan: Plan, p: Piece): nat
    requires plan.Valid() && plan.Planned(p)
  {
    Offset(plan, p.blockIndex) + p.pieceOrder
  }

  lemma {:induction false} SpansPrefix(plan: Plan, n: nat, m: nat)
    requires plan.Valid() && n <= m <= |plan.blocks|
    ensures plan.Spans(n) <= plan.Spans(m)
    decreases m - n
  {
    hide BlockSpans, BlockPieces;
    if n < m {
      SpansPrefix(plan, n, m - 1);
    }
  }

  /** A planned piece stands at its block's offset plus its order. */
  lemma PieceAt(plan: Plan, p: Piece)
    requires plan.Valid() && plan.Planned(p)
    ensures Place(plan, p) < |plan.ContextPlan()| && plan.ContextPlan()[Place(plan, p)] == SpanOf(p)
  {
    var b := p.blockIndex;
    SpansPrefix(plan, b + 1, |plan.blocks|);
    var spans := BlockSpans(b, plan.blocks[b], plan.splits[b]);
    assert plan.Spans(b + 1) == plan.Spans(b) + spans;
    assert spans[p.pieceOrder] == SpanOf(p);
  }

  /** The context plan spells each fragment, or the whole of a block that could
      not be split, with its tokens. */
  lemma ContextSpellsTheBlocks(plan: Plan, b: nat, o: nat)
    requires plan.Valid() && b < |plan.blocks|
    requires plan.splits[b].Fragments? ==> o < |plan.splits[b].fragments|
    requires plan.splits[b].Unsplittable? ==> o == 0
    ensures |plan.splits| == |plan.blocks| && Offset(plan, b) + o < |plan.ContextPlan()|
    ensures var span := plan.ContextPlan()[Offset(plan, b) + o];
            if plan.splits[b].Unsplittable? then
              && span.pieceId.None? && span.Text() == plan.blocks[b].text
              && span.tokenCount == plan.splits[b].tokenCount
            else
              var fragment := plan.splits[b].fragments[o];
              && span.pieceId == Some(plan.blocks[b].itemId + "::" + Decimal(o))
              && span.Text() == fragment.text + fragment.separatorAfter
              && span.tokenCount == fragment.tokenCount
  {
    assert |plan.splits| == |plan.blocks|;
    hide *;
    BlockSpansSpell(b, plan.blocks[b], plan.splits[b], o);
    SpansStandAt(plan, b, o);
  }

  lemma SpansStandAt(plan: Plan, b: nat, o: nat)
    requires plan.Valid() && |plan.splits| == |plan.blocks| && b < |plan.blocks|
    requires o < |BlockSpans(b, plan.blocks[b], plan.splits[b])|
    ensures Offset(plan, b) + o < |plan.ContextPlan()|
    ensures plan.ContextPlan()[Offset(plan, b) + o] == BlockSpans(b, plan.blocks[b], plan.splits[b])[o]
  {
    hide BlockSpans;
    SpansPrefix(plan, b + 1, |plan.blocks|);
    assert plan.Spans(b + 1)[|plan.Spans(b)| + o] == BlockSpans(b, plan.blocks[b], plan.splits[b])[o];
  }

  lemma BlockSpansSpell(index: nat, block: Block, split: Split, o: nat)
    requires split.Fragments? ==> o < |split.fragments|
    requires split.Unsplittable? ==> o == 0
    ensures o < |BlockSpans(index, block, split)|
    ensures var span := BlockSpans(index, block, split)[o];
            if split.Unsplittable? then
              span.pieceId.None? && span.Text() == block.text && span.tokenCount == split.tokenCount
            else
              && span.pieceId == Some(block.itemId + "::" + Decimal(o))
              && span.Text() == split.fragments[o].text + split.fragments[o].separatorAfter
              && span.tokenCount == split.fragments[o].tokenCount
  {
    hide Decimal;
    assert block.text + "" == block.text;
  }

  lemma SpanOfItsPiece(plan: Plan, b: nat, order: nat) returns (p: Piece)
    requires plan.Valid() && b < |plan.blocks|
    requires var spans := BlockSpans(b, plan.blocks[b], plan.splits[b]);
             order < |spans| && spans[order].pieceId.Some?
    ensures plan.Planned(p) && p.blockIndex == b && p.pieceOrder == order
    ensures BlockSpans(b, plan.blocks[b], plan.splits[b])[order] == SpanOf(p)
  {
    hide PieceId;
    p := plan.Pieces(b)[order];
  }

  /** Every span with an id comes from a planned piece, at that piece's place. */
  lemma {:induction false} SpanComesFrom(plan: Plan, n: nat, i: nat) returns (p: Piece)
    requires plan.Valid() && n <= |plan.blocks| && i < |plan.Spans(n)| && plan.Spans(n)[i].pieceId.Some?
    ensures plan.Planned(p) && plan.Spans(n)[i] == SpanOf(p) && i == Place(plan, p)
    decreases n
  {
    hide PieceId, IsWhitespace, Decimal;
    var order := i - |plan.Spans(n - 1)|;
    var spans := BlockSpans(n - 1, plan.blocks[n - 1], plan.splits[n - 1]);
    assert plan.Spans(n) == plan.Spans(n - 1) + spans;
    if order < 0 {
      hide BlockSpans, BlockPieces, Plan.Planned, Place;
      p := SpanComesFrom(plan, n - 1, i);
    } else {
      assert plan.Spans(n)[i] == spans[order];
      p := SpanOfItsPiece(plan, n - 1, order);
      hide BlockSpans, BlockPieces, Plan.Planned;
    }
  }

  /** Pieces at consecutive places fill a window of the plan. */
  lemma ConsecutivePiecesFillWindow(plan: Plan, pieces: seq<Piece>, first: nat)
    requires plan.Valid()
    requires forall k | 0 <= k < |pieces| :: plan.Planned(pieces[k]) && Place(plan, pieces[k]) == first + k
    ensures pieces != [] ==> FillsWindow(plan.ContextPlan(), IdsOf(pieces), first, |pieces|)
  {
    hide Place, BlockSpans, BlockPieces, PieceId;
    var spans := plan.ContextPlan();
    var ids := IdsOf(pieces);
    if pieces != [] {
      PieceAt(plan, pieces[|pieces| - 1]);
    }
    forall i | 0 <= i < |spans| && pieces != []
      ensures (spans[i].pieceId.Some? && spans[i].pieceId.value in ids) <==> first <= i < first + |pieces|
    {
      if first <= i < first + |pieces| {
        PieceAt(plan, pieces[i - first]);
        assert pieces[i - first] in pieces;
      } else if spans[i].pieceId.Some? && spans[i].pieceId.value in ids {
        NoOtherSpanHasAnId(plan, pieces, i);
      }
    }
  }

  lemma NoOtherSpanHasAnId(plan: Plan, pieces: seq<Piece>, i: nat)
    requires plan.Valid() && i < |plan.ContextPlan()|
    requires forall k | 0 <= k < |pieces| :: plan.Planned(pieces[k])
    requires plan.ContextPlan()[i].pieceId.Some? && plan.ContextPlan()[i].pieceId.value in IdsOf(pieces)
    ensures exists k | 0 <= k < |pieces| :: Place(plan, pieces[k]) == i
  {
    var p := SpanComesFrom(plan, |plan.blocks|, i);
    var q :| q in pieces && q.pieceId == p.pieceId;
    PlannedIdsAreDistinct(plan, p, q);
    var k :| 0 <= k < |pieces| && pieces[k] == q;
  }

  /** Neighbours in the ordered queue that follow each other are neighbours in
      the context plan, also across a block boundary. */
  lemma QueueNeighborsAreAdjacent(plan: Plan, next: seq<nat>, ordered: seq<Piece>, i: nat)
    requires IsQueue(plan, next, ordered) && i + 1 < |ordered|
    requires forall i, j | 0 <= i < j < |ordered| ::
               KeyAtMost(ordered[i], ordered[j]) && !KeyAtMost(ordered[j], ordered[i])
    requires Follows(ordered[i], ordered[i + 1])
    ensures plan.Planned(ordered[i]) && plan.Planned(ordered[i + 1])
    ensures Place(plan, ordered[i + 1]) == Place(plan, ordered[i]) + 1
  {
    var p, q := ordered[i], ordered[i + 1];
    assert Unsent(plan, next, p) && Unsent(plan, next, q);
    var b := p.blockIndex;
    if q.blockIndex == b + 1 {
      var last := plan.Pieces(b)[|plan.Pieces(b)| - 1];
      assert Unsent(plan, next, last);
      var k :| 0 <= k < |ordered| && ordered[k] == last;
      assert k == i;
      assert plan.Spans(b + 1) == plan.Spans(b) + BlockSpans(b, plan.blocks[b], plan.splits[b]);
    }
  }

  lemma BatchFollows(ordered: seq<Piece>, start: nat, batch: seq<Piece>, itemIds: seq<string>,
                     visible: set<string>, isolate: bool, priority: Option<nat>, k: nat)
    requires forall p | p in ordered :: p.blockIndex < |itemIds|
    requires IsBatch(ordered, start, batch, itemIds, visible, isolate, priority) && k < |batch|
    ensures start + k < |ordered| && batch[k] == ordered[start + k]
    ensures k > 0 ==> batch[k - 1] == ordered[start + k - 1] && Follows(batch[k - 1], batch[k])
  {
    if k > 0 {
      assert MayJoin(ordered[start..start + k], ordered[start + k], itemIds, visible, isolate, priority);
      assert batch[k - 1] == ordered[start + k - 1] == ordered[start..start + k][k - 1];
    }
  }

  lemma QueuedArePlanned(plan: Plan, next: seq<nat>, queue: seq<Piece>)
    requires IsQueue(plan, next, queue)
    ensures plan.Valid() && |plan.splits| == |plan.blocks|
    ensures forall p | p in queue :: plan.Planned(p)
    ensures forall p | p in queue :: p.blockIndex < |plan.ItemIds()|
  {
    forall p | p in queue
      ensures plan.Planned(p)
    {
      assert Unsent(plan, next, p);
    }
  }

  lemma BatchPlaces(plan: Plan, next: seq<nat>, ordered: seq<Piece>, start: nat, batch: seq<Piece>,
                    visible: set<string>, isolate: bool, priority: Option<nat>, k: nat)
    requires IsQueue(plan, next, ordered)
    requires forall i, j | 0 <= i < j < |ordered| ::
               KeyAtMost(ordered[i], ordered[j]) && !KeyAtMost(ordered[j], ordered[i])
    requires forall p | p in ordered :: p.blockIndex < |plan.ItemIds()|
    requires IsBatch(ordered, start, batch, plan.ItemIds(), visible, isolate, priority) && k < |batch|
    ensures plan.Planned(batch[k])
    ensures k > 0 ==> plan.Planned(batch[k - 1]) && Place(plan, batch[k]) == Place(plan, batch[k - 1]) + 1
  {
    QueuedArePlanned(plan, next, ordered);
    assert ordered == ordered[..start] + batch + ordered[start + |batch|..];
    hide *;
    BatchFollows(ordered, start, batch, plan.ItemIds(), visible, isolate, priority, k);
    if k > 0 {
      QueueNeighborsAreAdjacent(plan, next, ordered, start + k - 1);
    }
  }

  /** A batch taken from any queue of the run fills consecutive positions of
      the context plan, so the context builder accepts its window. */
  lemma BatchFillsWindow(plan: Plan, next: seq<nat>, queue: seq<Piece>, start: nat, batch: seq<Piece>,
                         visible: set<string>, isolate: bool, priority: Option<nat>)
    requires plan.Valid() && IsQueue(plan, next, queue)
    requires forall p | p in Sort(queue, KeyAtMost) :: p.blockIndex < |plan.ItemIds()|
    requires IsBatch(Sort(queue, KeyAtMost), start, batch, plan.ItemIds(), visible, isolate, priority) && batch != []
    ensures exists first: nat :: FillsWindow(plan.ContextPlan(), IdsOf(batch), first, |batch|)
  {
    assert |plan.splits| == |plan.blocks|;
    hide *;
    SortedQueue(plan, next, queue);
    OrderedBatchFillsWindow(plan, next, Sort(queue, KeyAtMost), start, batch, visible, isolate, priority);
  }

  lemma OrderedBatchFillsWindow(plan: Plan, next: seq<nat>, ordered: seq<Piece>, start: nat, batch: seq<Piece>,
                                visible: set<string>, isolate: bool, priority: Option<nat>)
    requires plan.Valid() && |plan.splits| == |plan.blocks| && IsQueue(plan, next, ordered)
    requires forall i, j | 0 <= i < j < |ordered| ::
               KeyAtMost(ordered[i], ordered[j]) && !KeyAtMost(ordered[j], ordered[i])
    requires forall p | p in ordered :: p.blockIndex < |plan.ItemIds()|
    requires IsBatch(ordered, start, batch, plan.ItemIds(), visible, isolate, priority) && batch != []
    ensures exists first: nat :: FillsWindow(plan.ContextPlan(), IdsOf(batch), first, |batch|)
  {
    hide *;
    BatchPlaces(plan, next, ordered, start, batch, visible, isolate, priority, 0);
    var first := Place(plan, batch[0]);
    var k := 1;
    while k < |batch|
      invariant 1 <= k <= |batch|
      invariant forall j | 0 <= j < k :: plan.Planned(batch[j]) && Place(plan, batch[j]) == first + j
    {
      BatchPlaces(plan, next, ordered, start, batch, visible, isolate, priority, k);
      k := k + 1;
    }
    ConsecutivePiecesFillWindow(plan, batch, first);
  }
}
