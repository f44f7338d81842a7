// The window of source text shown around a piece of a document
// (pipeline_adapter.rs, document_piece_neighbor_context): it grows outwards on
// both sides in turn, under a token budget and a cap on utterances.
module NeighborContext {
  import opened Machine

  const CONTEXT_TOKEN_BUDGET: nat := 512
  const MAX_PRECEDING_UTTERANCES: nat := 6

  datatype Span = Span(pieceId: Option<string>, sourceText: string, separatorAfter: string, tokenCount: nat) {
    function Text(): string {
      sourceText + separatorAfter
    }
  }

  function Tokens(plan: seq<Span>, lo: nat, hi: nat): nat
    requires lo <= hi <= |plan|
    decreases hi - lo
  {
    if lo == hi then 0 else Tokens(plan, lo, hi - 1) + plan[hi - 1].tokenCount
  }

  lemma {:induction false} TokensPrepend(plan: seq<Span>, lo: nat, hi: nat)
    requires lo < hi <= |plan|
    ensures Tokens(plan, lo, hi) == plan[lo].tokenCount + Tokens(plan, lo + 1, hi)
    decreases hi - lo
  {
    if lo + 1 < hi {
      TokensPrepend(plan, lo, hi - 1);
    }
  }

  /** Tokens of `a` spans before `first` and `b` spans from `end` on. */
  ghost function Used(plan: seq<Span>, first: nat, end: nat, a: nat, b: nat): nat
    requires a <= first <= end && end + b <= |plan|
  {
    Tokens(plan, first - a, first) + Tokens(plan, end, end + b)
  }

  lemma {:induction false} UsedGrows(plan: seq<Span>, first: nat, end: nat, a: nat, b: nat, a': nat, b': nat)
    requires a <= a' <= first <= end && b <= b' && end + b' <= |plan|
    ensures Used(plan, first, end, a, b) <= Used(plan, first, end, a', b')
    decreases a' - a + b' - b
  {
    if a < a' {
      UsedGrows(plan, first, end, a, b, a' - 1, b');
      TokensPrepend(plan, first - a', first);
    } else if b < b' {
      UsedGrows(plan, first, end, a, b, a', b' - 1);
    }
  }

  /** The left side ends after `a` spans: at the document's start, or because
      the next span did not fit when it was tried, right after the right side's
      first min(a, b) spans had been taken. */
  ghost predicate LeftStops(plan: seq<Span>, first: nat, end: nat, a: nat, b: nat)
    requires a <= first <= end && end + b <= |plan|
  {
    a == first || Used(plan, first, end, a + 1, Least(a, b)) > CONTEXT_TOKEN_BUDGET
  }

  ghost predicate RightStops(plan: seq<Span>, first: nat, end: nat, a: nat, b: nat)
    requires a <= first <= end && end + b <= |plan|
  {
    end + b == |plan| || Used(plan, first, end, Least(b + 1, a), b + 1) > CONTEXT_TOKEN_BUDGET
  }

  /** `a` spans right before the window [first, end) and `b` right after it. */
  ghost predicate Grown(plan: seq<Span>, first: nat, end: nat, a: nat, b: nat) {
    && a <= first <= end && end + b <= |plan|
    && a + b <= MAX_PRECEDING_UTTERANCES
    && Used(plan, first, end, a, b) <= CONTEXT_TOKEN_BUDGET
    && (a + b < MAX_PRECEDING_UTTERANCES || a < b ==> LeftStops(plan, first, end, a, b))
    && (a + b < MAX_PRECEDING_UTTERANCES || b < a ==> RightStops(plan, first, end, a, b))
  }

  /** The sizes of the two sides are fully determined. */
  lemma GrownIsUnique(plan: seq<Span>, first: nat, end: nat, a: nat, b: nat, a': nat, b': nat)
    requires Grown(plan, first, end, a, b) && Grown(plan, first, end, a', b')
    ensures a == a' && b == b'
  {
    NoMoreOnTheLeft(plan, first, end, a, b, a', b');
    NoMoreOnTheLeft(plan, first, end, a', b', a, b);
    NoMoreOnTheRight(plan, first, end, a, b, b');
    NoMoreOnTheRight(plan, first, end, a, b', b);
  }

  lemma NoMoreOnTheLeft(plan: seq<Span>, first: nat, end: nat, a: nat, b: nat, a': nat, b': nat)
    requires Grown(plan, first, end, a, b) && Grown(plan, first, end, a', b')
    ensures a' <= a
  {
    if a < a' {
      UsedGrows(plan, first, end, a + 1, Least(a, b'), a', b');
      if b' < a && b' < b {
        UsedGrows(plan, first, end, b' + 1, b' + 1, a, b);
      } else if LeftStops(plan, first, end, a, b) {
        UsedGrows(plan, first, end, a + 1, Least(a, b), a + 1, Least(a, b'));
      }
    }
  }

  lemma NoMoreOnTheRight(plan: seq<Span>, first: nat, end: nat, a: nat, b: nat, b': nat)
    requires Grown(plan, first, end, a, b) && Grown(plan, first, end, a, b')
    ensures b' <= b
  {
    if b < b' {
      UsedGrows(plan, first, end, Least(b + 1, a), b + 1, a, b');
    }
  }

  /** Where the pieces of a batch stand in the plan: exactly the spans
      [first, first + size). */
  ghost predicate FillsWindow(plan: seq<Span>, ids: set<string>, first: nat, size: nat) {
    && first + size <= |plan|
    && forall i | 0 <= i < |plan| ::
         (plan[i].pieceId.Some? && plan[i].pieceId.value in ids) <==> first <= i < first + size
  }

  function Ids(pieceIds: seq<string>): set<string> {
    set id | id in pieceIds
  }

  datatype Context = Context(preceding: seq<string>, following: seq<string>)

  method Positions(plan: seq<Span>, ids: set<string>) returns (positions: seq<nat>)
    ensures forall k | 0 <= k < |positions| ::
              positions[k] < |plan| && plan[positions[k]].pieceId.Some? && plan[positions[k]].pieceId.value in ids
    ensures forall i | 0 <= i < |plan| && plan[i].pieceId.Some? && plan[i].pieceId.value in ids :: i in positions
    ensures forall j, k | 0 <= j < k < |positions| :: positions[j] < positions[k]
  {
    positions := [];
    for i := 0 to |plan|
      invariant forall k | 0 <= k < |positions| ::
                  positions[k] < i && plan[positions[k]].pieceId.Some? && plan[positions[k]].pieceId.value in ids
      invariant forall k | 0 <= k < i && plan[k].pieceId.Some? && plan[k].pieceId.value in ids :: k in positions
      invariant forall j, k | 0 <= j < k < |positions| :: positions[j] < positions[k]
    {
      if plan[i].pieceId.Some? && plan[i].pieceId.value in ids {
        positions := positions + [i];
      }
    }
  }

  lemma {:induction false} IncreasingByOne(positions: seq<nat>, k: nat)
    requires k < |positions|
    requires forall i | 0 <= i < |positions| - 1 :: positions[i + 1] == positions[i] + 1
    ensures positions[k] == positions[0] + k
  {
    if k > 0 {
      IncreasingByOne(positions, k - 1);
      assert positions[k - 1 + 1] == positions[k - 1] + 1;
    }
  }

  /** Nothing is returned exactly when the batch is empty or does not fill
      consecutive positions of the plan. */
  method DocumentPieceNeighborContext(plan: seq<Span>, pieceIds: seq<string>) returns (context: Option<Context>)
    ensures context.Some? <==>
              pieceIds != [] && exists first: nat :: FillsWindow(plan, Ids(pieceIds), first, |pieceIds|)
    ensures context.Some? ==>
              var Context(preceding, following) := context.value;
              forall first: nat | FillsWindow(plan, Ids(pieceIds), first, |pieceIds|) ::
                var end := first + |pieceIds|;
                && Grown(plan, first, end, |preceding|, |following|)
                && (forall k | 0 <= k < |preceding| :: preceding[k] == plan[first - |preceding| + k].Text())
                && (forall k | 0 <= k < |following| :: following[k] == plan[end + k].Text())
  {
    if pieceIds == [] {
      return None;
    }
    var ids := Ids(pieceIds);
    var positions := Positions(plan, ids);
    PositionsShowTheWindow(plan, ids, |pieceIds|, positions);
    hide *;
    if !(|positions| == |pieceIds| && forall i | 0 <= i < |positions| - 1 :: positions[i + 1] == positions[i] + 1) {
      return None;
    }
    var first, last := positions[0], positions[|positions| - 1];
    var preceding, following := GrowContext(plan, first, last + 1);
    context := Some(Context(preceding, following));
  }

  /** The positions are consecutive exactly when the batch fills a window, and
      that window is the only one. */
  lemma PositionsShowTheWindow(plan: seq<Span>, ids: set<string>, size: nat, positions: seq<nat>)
    requires size > 0
    requires forall k | 0 <= k < |positions| ::
               positions[k] < |plan| && plan[positions[k]].pieceId.Some? && plan[positions[k]].pieceId.value in ids
    requires forall i | 0 <= i < |plan| && plan[i].pieceId.Some? && plan[i].pieceId.value in ids :: i in positions
    requires forall j, k | 0 <= j < k < |positions| :: positions[j] < positions[k]
    ensures (|positions| == size && forall i | 0 <= i < |positions| - 1 :: positions[i + 1] == positions[i] + 1) <==>
            exists first: nat :: FillsWindow(plan, ids, first, size)
    ensures (exists first: nat :: FillsWindow(plan, ids, first, size)) ==>
              positions[|positions| - 1] + 1 == positions[0] + size
    ensures forall first: nat | FillsWindow(plan, ids, first, size) :: first == positions[0] && first + size <= |plan|
  {
    if first: nat :| FillsWindow(plan, ids, first, size) {
      WindowPositions(plan, ids, first, size, positions);
      forall other: nat | FillsWindow(plan, ids, other, size)
        ensures other == first
      {
        WindowIsUnique(plan, ids, first, other, size);
      }
    }
    if |positions| == size && forall i | 0 <= i < |positions| - 1 :: positions[i + 1] == positions[i] + 1 {
      ConsecutivePositionsFill(plan, ids, positions);
    }
  }

  lemma ConsecutivePositionsFill(plan: seq<Span>, ids: set<string>, positions: seq<nat>)
    requires positions != []
    requires forall k | 0 <= k < |positions| ::
               positions[k] < |plan| && plan[positions[k]].pieceId.Some? && plan[positions[k]].pieceId.value in ids
    requires forall i | 0 <= i < |plan| && plan[i].pieceId.Some? && plan[i].pieceId.value in ids :: i in positions
    requires forall i | 0 <= i < |positions| - 1 :: positions[i + 1] == positions[i] + 1
    ensures FillsWindow(plan, ids, positions[0], |positions|)
  {
    var first := positions[0];
    forall k | 0 <= k < |positions|
      ensures positions[k] == first + k
    {
      IncreasingByOne(positions, k);
    }
    assert positions[|positions| - 1] < |plan|;
    forall i | 0 <= i < |plan|
      ensures (plan[i].pieceId.Some? && plan[i].pieceId.value in ids) <==> first <= i < first + |positions|
    {
      if first <= i < first + |positions| {
        assert positions[i - first] == i;
      }
    }
  }

  lemma WindowIsUnique(plan: seq<Span>, ids: set<string>, first: nat, other: nat, size: nat)
    requires size > 0 && FillsWindow(plan, ids, first, size) && FillsWindow(plan, ids, other, size)
    ensures first == other
  {
    assert plan[first].pieceId.Some? && plan[first].pieceId.value in ids;
    assert plan[other].pieceId.Some? && plan[other].pieceId.value in ids;
  }

  lemma {:induction false} WindowPositions(plan: seq<Span>, ids: set<string>, first: nat, size: nat,
                                           positions: seq<nat>)
    requires FillsWindow(plan, ids, first, size)
    requires forall k | 0 <= k < |positions| ::
               positions[k] < |plan| && plan[positions[k]].pieceId.Some? && plan[positions[k]].pieceId.value in ids
    requires forall i | 0 <= i < |plan| && plan[i].pieceId.Some? && plan[i].pieceId.value in ids :: i in positions
    requires forall j, k | 0 <= j < k < |positions| :: positions[j] < positions[k]
    ensures |positions| == size && forall k | 0 <= k < size :: positions[k] == first + k
  {
    forall k | 0 <= k < |positions|
      ensures first + k <= positions[k]
    {
      AtLeast(positions, first, k);
    }
    if |positions| > 0 {
      assert first + |positions| - 1 <= positions[|positions| - 1] < first + size;
    }
    var n := 0;
    while n < size
      invariant n <= size && n <= |positions|
      invariant forall k | 0 <= k < n :: positions[k] == first + k
    {
      assert plan[first + n].pieceId.Some?;
      var m :| 0 <= m < |positions| && positions[m] == first + n;
      assert m >= n;
      n := n + 1;
    }
  }

  lemma {:induction false} AtLeast(positions: seq<nat>, first: nat, k: nat)
    requires k < |positions|
    requires forall i | 0 <= i < |positions| :: first <= positions[i]
    requires forall i, j | 0 <= i < j < |positions| :: positions[i] < positions[j]
    ensures first + k <= positions[k]
  {
    if k > 0 {
      AtLeast(positions, first, k - 1);
    }
  }

  function Reversed<T>(s: seq<T>): (r: seq<T>)
    ensures |r| == |s| && forall k | 0 <= k < |s| :: r[k] == s[|s| - 1 - k]
  {
    seq(|s|, k requires 0 <= k < |s| => s[|s| - 1 - k])
  }

  lemma NothingUsed(plan: seq<Span>, first: nat, end: nat)
    requires first <= end <= |plan|
    ensures Used(plan, first, end, 0, 0) == 0
  {
  }

  lemma OneMoreSpan(plan: seq<Span>, first: nat, end: nat, a: nat, b: nat)
    requires a <= first <= end && end + b <= |plan|
    ensures a < first ==>
              Used(plan, first, end, a + 1, b) == Used(plan, first, end, a, b) + plan[first - a - 1].tokenCount
    ensures end + b < |plan| ==>
              Used(plan, first, end, a, b + 1) == Used(plan, first, end, a, b) + plan[end + b].tokenCount
  {
    if a < first {
      TokensPrepend(plan, first - a - 1, first);
    }
  }

  lemma StopsHere(plan: seq<Span>, first: nat, end: nat, a: nat, b: nat)
    requires a <= first <= end && end + b <= |plan|
    ensures a == first ==> LeftStops(plan, first, end, a, b)
    ensures b <= a < first && Used(plan, first, end, a + 1, b) > CONTEXT_TOKEN_BUDGET ==>
              LeftStops(plan, first, end, a, b)
    ensures end + b == |plan| ==> RightStops(plan, first, end, a, b)
    ensures a <= b + 1 && end + b < |plan| && Used(plan, first, end, a, b + 1) > CONTEXT_TOKEN_BUDGET ==>
              RightStops(plan, first, end, a, b)
  {
    hide Used;
  }

  /** A side that has stopped stays so while the other grows. */
  lemma StaysStopped(plan: seq<Span>, first: nat, end: nat, a: nat, b: nat)
    requires a <= first <= end && end + b <= |plan|
    ensures LeftStops(plan, first, end, a, b) && end + b < |plan| ==> LeftStops(plan, first, end, a, b + 1)
    ensures RightStops(plan, first, end, a, b) && a < first ==> RightStops(plan, first, end, a + 1, b)
  {
    if LeftStops(plan, first, end, a, b) && a < first && end + b < |plan| {
      UsedGrows(plan, first, end, a + 1, Least(a, b), a + 1, Least(a, b + 1));
    }
    if RightStops(plan, first, end, a, b) && a < first && end + b < |plan| {
      UsedGrows(plan, first, end, Least(b + 1, a), b + 1, Least(b + 1, a + 1), b + 1);
    }
  }

  /** Trying the next span on the left: it does not fit and the side stops, or
      it is taken. */
  lemma LeftTried(plan: seq<Span>, first: nat, end: nat, a: nat, b: nat)
    requires b <= a < first <= end && end + b <= |plan|
    ensures var used := Used(plan, first, end, a, b) + plan[first - a - 1].tokenCount;
            if used > CONTEXT_TOKEN_BUDGET then LeftStops(plan, first, end, a, b)
            else
              && Used(plan, first, end, a + 1, b) == used
              && (a + 1 == first ==> LeftStops(plan, first, end, a + 1, b))
              && (RightStops(plan, first, end, a, b) ==> RightStops(plan, first, end, a + 1, b))
  {
    hide Used, LeftStops, RightStops;
    OneMoreSpan(plan, first, end, a, b);
    StopsHere(plan, first, end, a, b);
    StopsHere(plan, first, end, a + 1, b);
    StaysStopped(plan, first, end, a, b);
  }

  lemma RightTried(plan: seq<Span>, first: nat, end: nat, a: nat, b: nat)
    requires a <= first <= end && end + b < |plan| && a <= b + 1
    ensures var used := Used(plan, first, end, a, b) + plan[end + b].tokenCount;
            if used > CONTEXT_TOKEN_BUDGET then RightStops(plan, first, end, a, b)
            else
              && Used(plan, first, end, a, b + 1) == used
              && (end + b + 1 == |plan| ==> RightStops(plan, first, end, a, b + 1))
              && (LeftStops(plan, first, end, a, b) ==> LeftStops(plan, first, end, a, b + 1))
  {
    hide Used, LeftStops, RightStops;
    OneMoreSpan(plan, first, end, a, b);
    StopsHere(plan, first, end, a, b);
    StopsHere(plan, first, end, a, b + 1);
    StaysStopped(plan, first, end, a, b);
  }

  method GrowContext(plan: seq<Span>, first: nat, end: nat) returns (preceding: seq<string>, following: seq<string>)
    requires first <= end <= |plan|
    ensures Grown(plan, first, end, |preceding|, |following|)
    ensures forall k | 0 <= k < |preceding| :: preceding[k] == plan[first - |preceding| + k].Text()
    ensures forall k | 0 <= k < |following| :: following[k] == plan[end + k].Text()
  {
    preceding, following := GrowOutwards(plan, first, end);
    preceding := Reversed(preceding);
  }

  /** The nearest span comes first on both sides. */
  method GrowOutwards(plan: seq<Span>, first: nat, end: nat) returns (preceding: seq<string>, following: seq<string>)
    requires first <= end <= |plan|
    ensures Grown(plan, first, end, |preceding|, |following|)
    ensures forall k | 0 <= k < |preceding| :: preceding[k] == plan[first - 1 - k].Text()
    ensures forall k | 0 <= k < |following| :: following[k] == plan[end + k].Text()
  {
    hide Used, Tokens, Span.Text, LeftStops, RightStops, Least, Grown;
    preceding, following := [], [];
    NothingUsed(plan, first, end);
    StopsHere(plan, first, end, 0, 0);
    var usedTokens := 0;
    var before := if first > 0 then Some(first - 1) else None;
    var after := if end < |plan| then Some(end) else None;
    while |preceding| + |following| < MAX_PRECEDING_UTTERANCES && (before.Some? || after.Some?)
      invariant |preceding| <= first && end + |following| <= |plan|
      invariant |preceding| + |following| <= MAX_PRECEDING_UTTERANCES
      invariant usedTokens == Used(plan, first, end, |preceding|, |following|) <= CONTEXT_TOKEN_BUDGET
      invariant forall k | 0 <= k < |preceding| :: preceding[k] == plan[first - 1 - k].Text()
      invariant forall k | 0 <= k < |following| :: following[k] == plan[end + k].Text()
      invariant before.Some? ==> |following| <= |preceding| < first && before.value == first - |preceding| - 1
      invariant after.Some? ==> |preceding| <= |following| < |plan| - end && after.value == end + |following|
      invariant before.Some? && after.None? ==> end + |following| == |plan| || |following| < |preceding|
      invariant before.None? ==> LeftStops(plan, first, end, |preceding|, |following|)
      invariant after.None? ==> RightStops(plan, first, end, |preceding|, |following|)
      decreases 2 * (first + |plan|) - |preceding| - |following|
                + (if before.Some? then 1 else 0) + (if after.Some? then 1 else 0)
    {
      if before.Some? {
        var index := before.value;
        before := None;
        var span := plan[index];
        LeftTried(plan, first, end, |preceding|, |following|);
        if SaturatingAdd(usedTokens, span.tokenCount) <= CONTEXT_TOKEN_BUDGET {
          preceding := preceding + [span.Text()];
          usedTokens := SaturatingAdd(usedTokens, span.tokenCount);
          before := if index > 0 then Some(index - 1) else None;
        }
      }
      if |preceding| + |following| >= MAX_PRECEDING_UTTERANCES {
        break;
      }
      if after.Some? {
        var index := after.value;
        after := None;
        var span := plan[index];
        RightTried(plan, first, end, |preceding|, |following|);
        if SaturatingAdd(usedTokens, span.tokenCount) <= CONTEXT_TOKEN_BUDGET {
          following := following + [span.Text()];
          usedTokens := SaturatingAdd(usedTokens, span.tokenCount);
          after := if index + 1 < |plan| then Some(index + 1) else None;
        }
      }
    }
    AllGrown(plan, first, end, |preceding|, |following|);
  }

  lemma AllGrown(plan: seq<Span>, first: nat, end: nat, a: nat, b: nat)
    requires a <= first <= end && end + b <= |plan| && a + b <= MAX_PRECEDING_UTTERANCES
    requires Used(plan, first, end, a, b) <= CONTEXT_TOKEN_BUDGET
    requires a + b < MAX_PRECEDING_UTTERANCES || a < b ==> LeftStops(plan, first, end, a, b)
    requires a + b < MAX_PRECEDING_UTTERANCES || b < a ==> RightStops(plan, first, end, a, b)
    ensures Grown(plan, first, end, a, b)
  {
  }
}
