// The queue of recognized regions and its microbatches (pipeline_adapter.rs,
// flush_translation_queue and the functions it decides by). What is visible may
// change arbitrarily between two dispatches.
module TranslationQueue {
  import opened Sorting

  const BATCH_MAX: nat := 6
  const BATCH_MIN: nat := 3

  datatype Region = Region(id: string, readingOrder: nat, queuedAt: nat, visible: bool)

  datatype Action = ContinueUpstream | Dispatch(count: nat) | Cancel

  datatype Phase = AwaitingFirstVisibleRegion | Throughput

  /** Visible regions first, then reading order, then time of queueing. */
  predicate PendingAtMost(left: Region, right: Region) {
    if left.visible != right.visible then left.visible
    else left.readingOrder < right.readingOrder
         || (left.readingOrder == right.readingOrder && left.queuedAt <= right.queuedAt)
  }

  predicate ReadAtMost(left: Region, right: Region) {
    left.readingOrder <= right.readingOrder
  }

  lemma OrdersAreTotal()
    ensures TotalPreorder(PendingAtMost) && TotalPreorder(ReadAtMost)
  {
  }

  function LeadingVisible(pending: seq<Region>): (count: nat)
    ensures count <= |pending| && forall i | 0 <= i < count :: pending[i].visible
    ensures count < |pending| ==> !pending[count].visible
  {
    if pending == [] || !pending[0].visible then 0 else 1 + LeadingVisible(pending[1..])
  }

  function ReadyLen(pending: seq<Region>, force: bool): nat {
    if pending == [] then 0
    else
      var visible := LeadingVisible(pending);
      if visible > 0 then visible
      else if force || |pending| >= BATCH_MIN then |pending|
      else 0
  }

  function TranslationBatchLen(available: nat): nat
    requires available > 0
  {
    if available <= BATCH_MAX then available
    else
      var tail := available - BATCH_MAX;
      if tail < BATCH_MIN then BATCH_MAX - (BATCH_MIN - tail) else BATCH_MAX
  }

  function BoundaryAction(pending: seq<Region>, force: bool, cancelled: bool, firstVisibleRegion: bool): Action {
    if cancelled then Cancel
    else if firstVisibleRegion then Dispatch(1)
    else
      var eligible := ReadyLen(pending, force);
      if eligible == 0 then ContinueUpstream else Dispatch(TranslationBatchLen(eligible))
  }

  // ---- Cutting N regions into microbatches ----

  function Cuts(n: nat): seq<nat> {
    if n == 0 then [] else [TranslationBatchLen(n)] + Cuts(n - TranslationBatchLen(n))
  }

  function Sum(s: seq<nat>): nat {
    if s == [] then 0 else s[0] + Sum(s[1..])
  }

  /** The cuts cover all regions with as few batches as batches of at most six
      allow, and none is smaller than three unless there are fewer than three. */
  lemma {:induction false} CutsAreMinimalAndBalanced(n: nat)
    ensures Sum(Cuts(n)) == n
    ensures |Cuts(n)| == (n + BATCH_MAX - 1) / BATCH_MAX
    ensures forall c | c in Cuts(n) :: 1 <= c <= BATCH_MAX && (n >= BATCH_MIN ==> c >= BATCH_MIN)
  {
    if n > 0 {
      CutsAreMinimalAndBalanced(n - TranslationBatchLen(n));
    }
  }

  /** The length cut off is the largest up to six that leaves none or enough for
      a batch of its own. */
  lemma BatchLenIsLargest(n: nat, count: nat)
    requires 0 < n && TranslationBatchLen(n) <= count <= n && count <= BATCH_MAX
    ensures 1 <= TranslationBatchLen(n) <= n && TranslationBatchLen(n) <= BATCH_MAX
    ensures n == TranslationBatchLen(n) || n - TranslationBatchLen(n) >= BATCH_MIN
    ensures n == count || n - count >= BATCH_MIN ==> count == TranslationBatchLen(n)
  {
  }

  lemma NoFewerCuts(n: nat, sizes: seq<nat>)
    requires Sum(sizes) == n && forall c | c in sizes :: c <= BATCH_MAX
    ensures |Cuts(n)| <= |sizes|
  {
    CutsAreMinimalAndBalanced(n);
    SumAtMost(sizes);
  }

  lemma {:induction false} SumAtMost(sizes: seq<nat>)
    requires forall c | c in sizes :: c <= BATCH_MAX
    ensures Sum(sizes) <= |sizes| * BATCH_MAX
  {
    if sizes != [] {
      assert sizes[0] in sizes && forall c | c in sizes[1..] :: c in sizes;
      SumAtMost(sizes[1..]);
    }
  }

  // ---- Flushing the queue ----

  datatype World = World(
    sees: (nat, string) -> bool,
    cancelled: nat -> bool,
    fails: nat -> bool,
    publishesVisible: nat -> bool)

  /** One dispatched microbatch and the regions left waiting behind it. */
  datatype Batch = Batch(regions: seq<Region>, waiting: seq<Region>)

  datatype Result = Done | Cancelled | Failed

  /** Visibility is set afresh for the dispatch about to be made. */
  function Marked(pending: seq<Region>, dispatch: nat, world: World): (marked: seq<Region>)
    ensures |marked| == |pending|
    ensures forall i | 0 <= i < |pending| ::
              marked[i] == pending[i].(visible := world.sees(dispatch, pending[i].id))
  {
    seq(|pending|, i requires 0 <= i < |pending| => pending[i].(visible := world.sees(dispatch, pending[i].id)))
  }

  /** A region but for its visibility. */
  function Identity(region: Region): Region {
    region.(visible := false)
  }

  function Identities(regions: seq<Region>): multiset<Region> {
    if regions == [] then multiset{} else multiset{Identity(regions[0])} + Identities(regions[1..])
  }

  function Dispatched(batches: seq<Batch>): multiset<Region> {
    if batches == [] then multiset{}
    else Dispatched(batches[..|batches| - 1]) + Identities(batches[|batches| - 1].regions)
  }

  lemma {:induction false} IdentitiesConcat(a: seq<Region>, b: seq<Region>)
    ensures Identities(a + b) == Identities(a) + Identities(b)
  {
    if a == [] {
      assert a + b == b;
    } else {
      assert (a + b)[1..] == a[1..] + b;
      IdentitiesConcat(a[1..], b);
    }
  }

  lemma {:induction false} IdentitiesOfPermutation(a: seq<Region>, b: seq<Region>)
    requires multiset(a) == multiset(b)
    ensures Identities(a) == Identities(b)
    decreases |a|
  {
    if a == [] {
      assert |multiset(a)| == |multiset(b)|;
    } else {
      assert a[0] in multiset(a);
      var i :| 0 <= i < |b| && b[i] == a[0];
      SameRest(a, b, i);
      IdentitiesOfPermutation(a[1..], b[..i] + b[i + 1..]);
      IdentitiesWithout(b, i);
    }
  }

  lemma TakenOut<T>(s: seq<T>, i: nat)
    requires i < |s|
    ensures multiset(s) == multiset(s[..i] + s[i + 1..]) + multiset{s[i]}
  {
    assert s == s[..i] + [s[i]] + s[i + 1..];
  }

  lemma SameRest<T>(a: seq<T>, b: seq<T>, i: nat)
    requires a != [] && i < |b| && b[i] == a[0] && multiset(a) == multiset(b)
    ensures multiset(a[1..]) == multiset(b[..i] + b[i + 1..])
  {
    TakenOut(a, 0);
    TakenOut(b, i);
    assert a[..0] + a[1..] == a[1..];
    SameWithout(multiset(a[1..]), multiset(b[..i] + b[i + 1..]), a[0]);
  }

  lemma SameWithout<T>(m: multiset<T>, n: multiset<T>, x: T)
    requires m + multiset{x} == n + multiset{x}
    ensures m == n
  {
    assert (m + multiset{x}) - multiset{x} == m;
    assert (n + multiset{x}) - multiset{x} == n;
  }

  lemma IdentitiesWithout(s: seq<Region>, i: nat)
    requires i < |s|
    ensures Identities(s) == Identities(s[..i] + s[i + 1..]) + multiset{Identity(s[i])}
  {
    assert s == s[..i] + s[i..];
    assert s[i..][1..] == s[i + 1..];
    IdentitiesConcat(s[..i], s[i..]);
    IdentitiesConcat(s[..i], s[i + 1..]);
  }

  lemma {:induction false} IdentitiesOfMarked(pending: seq<Region>, dispatch: nat, world: World)
    ensures Identities(Marked(pending, dispatch, world)) == Identities(pending)
  {
    if pending != [] {
      assert Marked(pending, dispatch, world)[1..] == Marked(pending[1..], dispatch, world);
      IdentitiesOfMarked(pending[1..], dispatch, world);
    }
  }

  /** Of two regions the browser shows alike, this one is read, or else was
      queued, no later. */
  predicate NoLater(r: Region, w: Region) {
    r.readingOrder < w.readingOrder || (r.readingOrder == w.readingOrder && r.queuedAt <= w.queuedAt)
  }

  /** A microbatch is small, in reading order and of one visibility; nothing it
      leaves waiting is visible before it is, or alike and earlier on the page. */
  ghost predicate ProperBatch(batch: Batch) {
    && 1 <= |batch.regions| <= BATCH_MAX
    && (forall i, j | 0 <= i < j < |batch.regions| :: batch.regions[i].readingOrder <= batch.regions[j].readingOrder)
    && (forall r, q | r in batch.regions && q in batch.regions :: r.visible == q.visible)
    && (forall r, w | r in batch.regions && w in batch.waiting ::
          (w.visible ==> r.visible) && (w.visible == r.visible ==> NoLater(r, w)))
  }

  /** The head of the sorted queue that the boundary action dispatches. */
  lemma HeadIsProper(pending: seq<Region>, force: bool, first: bool)
    requires pending != [] && Ordered(pending, PendingAtMost)
    requires first ==> pending[0].visible
    requires BoundaryAction(pending, force, false, first).Dispatch?
    ensures var count := BoundaryAction(pending, force, false, first).count;
            && 1 <= count <= BATCH_MAX && count <= |pending|
            && ProperBatch(Batch(Sort(pending[..count], ReadAtMost), pending[count..]))
  {
    var count := BoundaryAction(pending, force, false, first).count;
    var head, waiting := pending[..count], pending[count..];
    OrdersAreTotal();
    SortIsOrdered(head, ReadAtMost);
    SortElements(head, ReadAtMost);
    OneVisibility(pending, force, first);
    forall r, w | r in head && w in waiting
      ensures (w.visible ==> r.visible) && (w.visible == r.visible ==> NoLater(r, w))
    {
      var i :| 0 <= i < count && pending[i] == r;
      var j :| count <= j < |pending| && pending[j] == w;
      assert PendingAtMost(r, w);
    }
    assert forall i, j | 0 <= i < j < |Sort(head, ReadAtMost)| ::
        ReadAtMost(Sort(head, ReadAtMost)[i], Sort(head, ReadAtMost)[j]);
  }

  lemma OneVisibility(pending: seq<Region>, force: bool, first: bool)
    requires pending != [] && Ordered(pending, PendingAtMost)
    requires first ==> pending[0].visible
    requires BoundaryAction(pending, force, false, first).Dispatch?
    ensures BoundaryAction(pending, force, false, first).count <= |pending|
    ensures forall r, q | r in pending[..BoundaryAction(pending, force, false, first).count]
                          && q in pending[..BoundaryAction(pending, force, false, first).count] ::
              r.visible == q.visible
  {
    var visible := LeadingVisible(pending);
    forall i | visible <= i < |pending|
      ensures !pending[i].visible
    {
      assert i == visible || PendingAtMost(pending[visible], pending[i]);
    }
  }

  // ---- What a flush has dispatched ----

  function VisibleCount(regions: seq<Region>): nat {
    if regions == [] then 0 else (if regions[0].visible then 1 else 0) + VisibleCount(regions[1..])
  }

  /** The marks are what the browser shows at the time of a dispatch. */
  predicate SeenAt(regions: seq<Region>, world: World, dispatch: nat) {
    forall r | r in regions :: r.visible == world.sees(dispatch, r.id)
  }

  /** Latency rules until a batch has published something visible. */
  function PhaseAt(phase0: Phase, world: World, dispatched0: nat, k: nat): Phase {
    if k == 0 then phase0
    else if world.publishesVisible(dispatched0 + k - 1) then Throughput
    else PhaseAt(phase0, world, dispatched0, k - 1)
  }

  /** The first visible region goes alone; after that all that is visible, or
      else all there is, is cut evenly. Sparse offscreen regions wait for force. */
  predicate RightSize(batch: Batch, force: bool, phase: Phase) {
    var available := VisibleCount(batch.regions) + VisibleCount(batch.waiting);
    if available > 0 then
      |batch.regions| == if phase.AwaitingFirstVisibleRegion? then 1 else TranslationBatchLen(available)
    else
      var all := |batch.regions| + |batch.waiting|;
      (force || all >= BATCH_MIN) && all > 0 && |batch.regions| == TranslationBatchLen(all)
  }

  /** The k-th batch of a flush: it and what waited behind it were just the
      regions not dispatched before, marked as the browser showed them then. */
  ghost predicate RightBatch(pending0: seq<Region>, force: bool, world: World, phase0: Phase, dispatched0: nat,
                             batches: seq<Batch>, k: nat)
    requires k < |batches|
  {
    var batch := batches[k];
    && Identities(pending0) == Dispatched(batches[..k + 1]) + Identities(batch.waiting)
    && SeenAt(batch.regions, world, dispatched0 + k)
    && SeenAt(batch.waiting, world, dispatched0 + k)
    && ProperBatch(batch)
    && RightSize(batch, force, PhaseAt(phase0, world, dispatched0, k))
  }

  ghost predicate RightBatches(pending0: seq<Region>, force: bool, world: World, phase0: Phase, dispatched0: nat,
                               batches: seq<Batch>)
  {
    forall k | 0 <= k < |batches| :: RightBatch(pending0, force, world, phase0, dispatched0, batches, k)
  }

  /** Each region goes out once, as the browser's view at each dispatch demands. */
  method FlushTranslationQueue(pending0: seq<Region>, force: bool, world: World, phase0: Phase, dispatched0: nat)
    returns (result: Result, pending: seq<Region>, batches: seq<Batch>, phase: Phase)
    ensures Identities(pending0) == Dispatched(batches) + Identities(pending)
    ensures RightBatches(pending0, force, world, phase0, dispatched0, batches)
    ensures forall d | dispatched0 <= d < dispatched0 + |batches| :: !world.cancelled(d)
    ensures forall d | dispatched0 <= d < dispatched0 + |batches| - 1 :: !world.fails(d)
    ensures result.Failed? <==> batches != [] && world.fails(dispatched0 + |batches| - 1)
    ensures result.Cancelled? ==> pending != [] && world.cancelled(dispatched0 + |batches|)
    ensures result.Done? ==> pending == [] || !world.cancelled(dispatched0 + |batches|)
    ensures result.Done? && force ==> pending == []
    ensures result.Done? ==> |pending| < BATCH_MIN
    ensures result.Done? ==> forall r | r in pending :: !r.visible && !world.sees(dispatched0 + |batches|, r.id)
    ensures !result.Failed? ==> phase == PhaseAt(phase0, world, dispatched0, |batches|)
    ensures result.Failed? ==> phase == PhaseAt(phase0, world, dispatched0, |batches| - 1)
  {
    hide Sort, Ordered, ProperBatch, Identities, Dispatched, Marked, ReadyLen, TranslationBatchLen, BoundaryAction;
    hide SeenAt, RightSize, RightBatches, PendingAtMost, ReadAtMost;
    pending, batches, phase := pending0, [], phase0;
    NothingDispatched(pending0, force, world, phase0, dispatched0);
    while pending != []
      invariant Identities(pending0) == Dispatched(batches) + Identities(pending)
      invariant RightBatches(pending0, force, world, phase0, dispatched0, batches)
      invariant forall d | dispatched0 <= d < dispatched0 + |batches| :: !world.cancelled(d)
      invariant forall d | dispatched0 <= d < dispatched0 + |batches| :: !world.fails(d)
      invariant phase == PhaseAt(phase0, world, dispatched0, |batches|)
      decreases |pending|
    {
      ghost var before := pending;
      var dispatch := dispatched0 + |batches|;
      pending := Sort(Marked(pending, dispatch, world), PendingAtMost);
      Prioritized(before, dispatch, world);
      var first := phase.AwaitingFirstVisibleRegion? && pending != [] && pending[0].visible;
      var action := BoundaryAction(pending, force, world.cancelled(dispatch), first);
      CancelledFirst(pending, force, world.cancelled(dispatch), first);
      if action.ContinueUpstream? {
        NothingVisibleWaits(pending, force, first, world, dispatch);
        return Done, pending, batches, phase;
      }
      if action.Cancel? {
        return Cancelled, pending, batches, phase;
      }
      DispatchIsRight(pending0, force, world, phase0, dispatched0, batches, pending, phase);
      var count := action.count;
      if !(1 <= count <= BATCH_MAX) {
        assert false;
      }
      var batch := Sort(pending[..count], ReadAtMost);
      batches := batches + [Batch(batch, pending[count..])];
      pending := pending[count..];
      if world.fails(dispatch) {
        return Failed, pending, batches, phase;
      }
      if world.publishesVisible(dispatch) {
        phase := Throughput;
      }
    }
    result := Done;
  }

  /** What holds after the head of the sorted queue went out. */
  lemma DispatchIsRight(pending0: seq<Region>, force: bool, world: World, phase0: Phase, dispatched0: nat,
                        batches: seq<Batch>, pending: seq<Region>, phase: Phase)
    requires pending != [] && Ordered(pending, PendingAtMost)
    requires SeenAt(pending, world, dispatched0 + |batches|)
    requires RightBatches(pending0, force, world, phase0, dispatched0, batches)
    requires Identities(pending0) == Dispatched(batches) + Identities(pending)
    requires phase == PhaseAt(phase0, world, dispatched0, |batches|)
    requires var first := phase.AwaitingFirstVisibleRegion? && pending[0].visible;
             BoundaryAction(pending, force, false, first).Dispatch?
    ensures var first := phase.AwaitingFirstVisibleRegion? && pending[0].visible;
            var count := BoundaryAction(pending, force, false, first).count;
            && 1 <= count <= BATCH_MAX && count <= |pending|
            && var batch := Batch(Sort(pending[..count], ReadAtMost), pending[count..]);
               && RightBatches(pending0, force, world, phase0, dispatched0, batches + [batch])
               && Identities(pending0) == Dispatched(batches + [batch]) + Identities(pending[count..])
  {
    hide *;
    var first := phase.AwaitingFirstVisibleRegion? && pending[0].visible;
    var count := BoundaryAction(pending, force, false, first).count;
    HeadIsProper(pending, force, first);
    var batch := Batch(Sort(pending[..count], ReadAtMost), pending[count..]);
    Conserved(pending, count);
    HeadIsSeen(pending, count, world, dispatched0 + |batches|);
    HeadHasRightSize(pending, force, phase);
    OneMoreRight(pending0, force, world, phase0, dispatched0, batches, batch);
    DispatchedGrows(batches, batch);
  }

  lemma CancelledFirst(pending: seq<Region>, force: bool, cancelled: bool, first: bool)
    ensures BoundaryAction(pending, force, cancelled, first).Cancel? <==> cancelled
  {
  }

  /** Nothing offscreen goes out while something the browser shows is pending. */
  lemma VisibleGoesFirst(pending0: seq<Region>, force: bool, world: World, phase0: Phase, dispatched0: nat,
                         batches: seq<Batch>, k: nat, waiting: Region)
    requires RightBatches(pending0, force, world, phase0, dispatched0, batches) && k < |batches|
    requires waiting in batches[k].waiting && world.sees(dispatched0 + k, waiting.id)
    ensures forall r | r in batches[k].regions :: world.sees(dispatched0 + k, r.id)
  {
    assert RightBatch(pending0, force, world, phase0, dispatched0, batches, k);
  }

  /** Of what the browser shows alike, the page's beginning goes before its end. */
  lemma EarlierOnThePageGoesFirst(pending0: seq<Region>, force: bool, world: World, phase0: Phase, dispatched0: nat,
                                  batches: seq<Batch>, k: nat, sent: Region, waiting: Region)
    requires RightBatches(pending0, force, world, phase0, dispatched0, batches) && k < |batches|
    requires sent in batches[k].regions && waiting in batches[k].waiting
    requires world.sees(dispatched0 + k, sent.id) == world.sees(dispatched0 + k, waiting.id)
    ensures sent.readingOrder < waiting.readingOrder
            || (sent.readingOrder == waiting.readingOrder && sent.queuedAt <= waiting.queuedAt)
  {
    assert RightBatch(pending0, force, world, phase0, dispatched0, batches, k);
  }

  /** No batch mixes what the browser shows with what it does not, and each is
      in reading order. */
  lemma BatchesDoNotMix(pending0: seq<Region>, force: bool, world: World, phase0: Phase, dispatched0: nat,
                        batches: seq<Batch>, k: nat)
    requires RightBatches(pending0, force, world, phase0, dispatched0, batches) && k < |batches|
    ensures 1 <= |batches[k].regions| <= BATCH_MAX
    ensures forall i, j | 0 <= i < j < |batches[k].regions| ::
              batches[k].regions[i].readingOrder <= batches[k].regions[j].readingOrder
    ensures forall r, q | r in batches[k].regions && q in batches[k].regions ::
              world.sees(dispatched0 + k, r.id) == world.sees(dispatched0 + k, q.id)
  {
    assert RightBatch(pending0, force, world, phase0, dispatched0, batches, k);
  }

  lemma {:induction false} VisibleCountConcat(a: seq<Region>, b: seq<Region>)
    ensures VisibleCount(a + b) == VisibleCount(a) + VisibleCount(b)
  {
    if a == [] {
      assert a + b == b;
    } else {
      assert (a + b)[1..] == a[1..] + b;
      VisibleCountConcat(a[1..], b);
    }
  }

  lemma {:induction false} InsertVisible(x: Region, s: seq<Region>)
    ensures VisibleCount(Insert(x, s, ReadAtMost)) == (if x.visible then 1 else 0) + VisibleCount(s)
  {
    if s == [] || ReadAtMost(x, s[0]) {
      assert ([x] + s)[1..] == s;
    } else {
      InsertVisible(x, s[1..]);
      assert ([s[0]] + Insert(x, s[1..], ReadAtMost))[1..] == Insert(x, s[1..], ReadAtMost);
    }
  }

  lemma {:induction false} SortVisible(s: seq<Region>)
    ensures VisibleCount(Sort(s, ReadAtMost)) == VisibleCount(s)
  {
    if s != [] {
      SortVisible(s[1..]);
      InsertVisible(s[0], Sort(s[1..], ReadAtMost));
    }
  }

  lemma {:induction false} NoneVisible(s: seq<Region>)
    requires forall i | 0 <= i < |s| :: !s[i].visible
    ensures VisibleCount(s) == 0
  {
    if s != [] {
      NoneVisible(s[1..]);
    }
  }

  /** In the sorted queue what is visible leads. */
  lemma {:induction false} LeadingIsAllVisible(pending: seq<Region>)
    requires Ordered(pending, PendingAtMost)
    ensures LeadingVisible(pending) == VisibleCount(pending)
  {
    if pending != [] {
      if pending[0].visible {
        LeadingIsAllVisible(pending[1..]);
      } else {
        forall i | 0 <= i < |pending| ensures !pending[i].visible {
          assert i == 0 || PendingAtMost(pending[0], pending[i]);
        }
        NoneVisible(pending);
      }
    }
  }

  lemma HeadHasRightSize(pending: seq<Region>, force: bool, phase: Phase)
    requires pending != [] && Ordered(pending, PendingAtMost)
    requires var first := phase.AwaitingFirstVisibleRegion? && pending[0].visible;
             BoundaryAction(pending, force, false, first).Dispatch?
             && BoundaryAction(pending, force, false, first).count <= |pending|
    ensures var first := phase.AwaitingFirstVisibleRegion? && pending[0].visible;
            var count := BoundaryAction(pending, force, false, first).count;
            RightSize(Batch(Sort(pending[..count], ReadAtMost), pending[count..]), force, phase)
  {
    var first := phase.AwaitingFirstVisibleRegion? && pending[0].visible;
    var count := BoundaryAction(pending, force, false, first).count;
    hide *;
    HeadAndTailCount(pending, count);
    SizeOfHead(pending, force, phase, Batch(Sort(pending[..count], ReadAtMost), pending[count..]));
  }

  lemma HeadAndTailCount(pending: seq<Region>, count: nat)
    requires Ordered(pending, PendingAtMost) && count <= |pending|
    ensures |Sort(pending[..count], ReadAtMost)| + |pending[count..]| == |pending|
    ensures |Sort(pending[..count], ReadAtMost)| == count
    ensures VisibleCount(Sort(pending[..count], ReadAtMost)) + VisibleCount(pending[count..]) == LeadingVisible(pending)
  {
    hide *;
    LeadingIsAllVisible(pending);
    SortVisible(pending[..count]);
    SortElements(pending[..count], ReadAtMost);
    VisibleCountConcat(pending[..count], pending[count..]);
    assert pending == pending[..count] + pending[count..];
  }

  lemma SizeOfHead(pending: seq<Region>, force: bool, phase: Phase, batch: Batch)
    requires pending != [] && |batch.regions| + |batch.waiting| == |pending|
    requires VisibleCount(batch.regions) + VisibleCount(batch.waiting) == LeadingVisible(pending)
    requires var first := phase.AwaitingFirstVisibleRegion? && pending[0].visible;
             BoundaryAction(pending, force, false, first) == Dispatch(|batch.regions|)
    ensures RightSize(batch, force, phase)
  {
    LeadingIsVisible(pending);
    hide VisibleCount, TranslationBatchLen, LeadingVisible;
  }

  lemma LeadingIsVisible(pending: seq<Region>)
    requires pending != []
    ensures pending[0].visible <==> LeadingVisible(pending) > 0
  {
  }

  lemma HeadIsSeen(pending: seq<Region>, count: nat, world: World, dispatch: nat)
    requires count <= |pending| && SeenAt(pending, world, dispatch)
    ensures SeenAt(Sort(pending[..count], ReadAtMost), world, dispatch)
    ensures SeenAt(pending[count..], world, dispatch)
  {
    SortElements(pending[..count], ReadAtMost);
    hide Sort;
    assert forall r | r in pending[..count] :: r in pending;
    assert forall r | r in pending[count..] :: r in pending;
  }

  lemma OneMoreRight(pending0: seq<Region>, force: bool, world: World, phase0: Phase, dispatched0: nat,
                     batches: seq<Batch>, batch: Batch)
    requires RightBatches(pending0, force, world, phase0, dispatched0, batches)
    requires Identities(pending0) == Dispatched(batches) + Identities(batch.regions) + Identities(batch.waiting)
    requires SeenAt(batch.regions, world, dispatched0 + |batches|)
             && SeenAt(batch.waiting, world, dispatched0 + |batches|)
    requires ProperBatch(batch) && RightSize(batch, force, PhaseAt(phase0, world, dispatched0, |batches|))
    ensures RightBatches(pending0, force, world, phase0, dispatched0, batches + [batch])
  {
    hide ProperBatch, RightSize, SeenAt, Identities, Dispatched;
    var more := batches + [batch];
    DispatchedGrows(batches, batch);
    forall k | 0 <= k < |more|
      ensures RightBatch(pending0, force, world, phase0, dispatched0, more, k)
    {
      if k < |batches| {
        assert RightBatch(pending0, force, world, phase0, dispatched0, batches, k);
        assert more[..k + 1] == batches[..k + 1];
      } else {
        assert more[..k + 1] == more;
      }
    }
  }

  lemma Prioritized(pending: seq<Region>, dispatch: nat, world: World)
    ensures var sorted := Sort(Marked(pending, dispatch, world), PendingAtMost);
            && |sorted| == |pending| && Ordered(sorted, PendingAtMost) && Identities(sorted) == Identities(pending)
            && SeenAt(sorted, world, dispatch)
  {
    var marked := Marked(pending, dispatch, world);
    OrdersAreTotal();
    hide Identities, Sort, Marked, Ordered, TotalPreorder, PendingAtMost;
    SortIsOrdered(marked, PendingAtMost);
    SortElements(marked, PendingAtMost);
    IdentitiesOfMarked(pending, dispatch, world);
    IdentitiesOfPermutation(marked, Sort(marked, PendingAtMost));
  }

  lemma NothingVisibleWaits(pending: seq<Region>, force: bool, first: bool, world: World, dispatch: nat)
    requires pending != [] && Ordered(pending, PendingAtMost) && SeenAt(pending, world, dispatch)
    requires BoundaryAction(pending, force, false, first).ContinueUpstream?
    ensures !force && |pending| < BATCH_MIN
    ensures forall r | r in pending :: !r.visible && !world.sees(dispatch, r.id)
  {
    forall i | 0 <= i < |pending|
      ensures !pending[i].visible
    {
      assert i == 0 || PendingAtMost(pending[0], pending[i]);
    }
  }

  lemma Conserved(pending: seq<Region>, count: nat)
    requires count <= |pending|
    ensures Identities(pending) == Identities(Sort(pending[..count], ReadAtMost)) + Identities(pending[count..])
  {
    assert pending == pending[..count] + pending[count..];
    IdentitiesConcat(pending[..count], pending[count..]);
    IdentitiesOfPermutation(pending[..count], Sort(pending[..count], ReadAtMost));
  }

  lemma NothingDispatched(pending0: seq<Region>, force: bool, world: World, phase0: Phase, dispatched0: nat)
    ensures Dispatched([]) == multiset{} && RightBatches(pending0, force, world, phase0, dispatched0, [])
  {
  }

  lemma DispatchedGrows(batches: seq<Batch>, batch: Batch)
    ensures Dispatched(batches + [batch]) == Dispatched(batches) + Identities(batch.regions)
  {
    assert (batches + [batch])[..|batches|] == batches;
  }
}
