// The ordered context of a chapter (chapter_session.rs, ChapterContextStore):
// units are registered at their canonical positions, translations are published
// in whatever order they finish, and context is always read in position order.
module ChapterContext {
  import opened Machine
  import opened Text

  const MAX_CONTEXT_UTTERANCES: nat := 6

  datatype Position = Position(source: nat, order: nat)

  datatype ContextUnit = ContextUnit(
    itemId: string,
    sourceIndex: nat,
    itemOrder: nat,
    sourceText: string,
    displayedText: Option<string>)
  {
    function At(): Position {
      Position(sourceIndex, itemOrder)
    }
  }

  type Chapter = map<Position, ContextUnit>

  datatype Utterance = Utterance(source: string, chinese: string)

  predicate AtMost(a: Position, b: Position) {
    a.source < b.source || (a.source == b.source && a.order <= b.order)
  }

  predicate Precedes(a: Position, b: Position) {
    AtMost(a, b) && a != b
  }

  // ---- Updates, as functions on one chapter ----

  function RegisterUnit(chapter: Chapter, unit: ContextUnit): Chapter {
    if unit.At() in chapter
       && chapter[unit.At()].itemId == unit.itemId && chapter[unit.At()].sourceText == unit.sourceText
    then chapter[unit.At() := unit.(displayedText := chapter[unit.At()].displayedText)]
    else chapter[unit.At() := unit]
  }

  function RegisterAll(chapter: Chapter, units: seq<ContextUnit>): Chapter {
    if units == [] then chapter
    else RegisterUnit(RegisterAll(chapter, units[..|units| - 1]), units[|units| - 1])
  }

  datatype Publication = Publication(position: Position, itemId: string, text: string)

  function Publish(chapter: Chapter, p: Publication): Chapter {
    if p.position in chapter && chapter[p.position].itemId == p.itemId
    then chapter[p.position := chapter[p.position].(displayedText := Some(p.text))]
    else chapter
  }

  function PublishAll(chapter: Chapter, ps: seq<Publication>): Chapter {
    if ps == [] then chapter else PublishAll(Publish(chapter, ps[0]), ps[1..])
  }

  /** A publication for a chapter that is not known is lost. */
  function PublishIn(chapters: map<string, Chapter>, id: string, publication: Publication): map<string, Chapter> {
    if id in chapters then chapters[id := Publish(chapters[id], publication)] else chapters
  }

  function PublishAllIn(chapters: map<string, Chapter>, ps: seq<(string, Publication)>): map<string, Chapter>
    decreases |ps|
  {
    if ps == [] then chapters else PublishAllIn(PublishIn(chapters, ps[0].0, ps[0].1), ps[1..])
  }

  function WithoutSource(chapter: Chapter, source: nat): Chapter {
    map p | p in chapter && p.source != source :: chapter[p]
  }

  /** Every unit stands at its own position. */
  ghost predicate Placed(chapter: Chapter) {
    forall p | p in chapter :: chapter[p].At() == p
  }

  class ChapterContextStore {
    var chapters: map<string, Chapter>

    constructor ()
      ensures chapters == map[] && Valid()
    {
      chapters := map[];
    }

    ghost predicate Valid()
      reads this
    {
      forall id | id in chapters :: Placed(chapters[id])
    }

    function ChapterOf(id: string): Chapter
      reads this
    {
      if id in chapters then chapters[id] else map[]
    }

    method Register(id: string, units: seq<ContextUnit>)
      requires Valid()
      modifies this
      ensures Valid()
      ensures chapters == old(chapters)[id := RegisterAll(old(ChapterOf(id)), units)]
    {
      var chapter := ChapterOf(id);
      for i := 0 to |units|
        invariant Placed(chapter)
        invariant chapter == RegisterAll(old(ChapterOf(id)), units[..i])
      {
        var unit := units[i];
        var position := unit.At();
        assert units[..i + 1][..i] == units[..i];
        if position in chapter {
          var existing := chapter[position];
          if existing.itemId == unit.itemId && existing.sourceText == unit.sourceText {
            chapter := chapter[position := unit.(displayedText := existing.displayedText)];
          } else {
            chapter := chapter[position := unit];
          }
        } else {
          chapter := chapter[position := unit];
        }
      }
      assert units[..|units|] == units;
      chapters := chapters[id := chapter];
    }

    method PublishText(id: string, position: Position, itemId: string, text: string)
      requires Valid()
      modifies this
      ensures Valid()
      ensures chapters == PublishIn(old(chapters), id, Publication(position, itemId, text))
    {
      if id in chapters {
        var chapter := chapters[id];
        if position in chapter && chapter[position].itemId == itemId {
          chapters := chapters[id := chapter[position := chapter[position].(displayedText := Some(text))]];
        } else {
          assert chapters[id := chapter] == chapters;
        }
      }
    }

    method RemoveSource(id: string, source: nat)
      requires Valid()
      modifies this
      ensures Valid()
      ensures chapters == if id in old(chapters)
                          then old(chapters)[id := WithoutSource(old(chapters)[id], source)]
                          else old(chapters)
    {
      if id in chapters {
        chapters := chapters[id := WithoutSource(chapters[id], source)];
      }
    }
  }

  // ---- Completion order does not matter ----

  ghost predicate DistinctPositions(ps: seq<Publication>) {
    forall i, j | 0 <= i < j < |ps| :: ps[i].position != ps[j].position
  }

  /** A unit changes only by the one publication for its position, if that
      names the registered item. */
  lemma {:induction false} PublishedAt(chapter: Chapter, ps: seq<Publication>)
    requires DistinctPositions(ps)
    ensures PublishAll(chapter, ps).Keys == chapter.Keys
    ensures forall p | p in chapter && (forall q | q in ps :: q.position != p) ::
              PublishAll(chapter, ps)[p] == chapter[p]
    ensures forall q | q in ps && q.position in chapter ::
              PublishAll(chapter, ps)[q.position]
              == if chapter[q.position].itemId == q.itemId then chapter[q.position].(displayedText := Some(q.text))
                 else chapter[q.position]
    decreases |ps|
  {
    if ps != [] {
      PublishedAt(Publish(chapter, ps[0]), ps[1..]);
      forall q | q in ps[1..]
        ensures q.position != ps[0].position
      {
        var k :| 1 <= k < |ps| && ps[k] == q;
      }
    }
  }

  lemma CompletionOrderDoesNotMatter(chapter: Chapter, ps: seq<Publication>, qs: seq<Publication>)
    requires DistinctPositions(ps) && DistinctPositions(qs)
    requires forall p :: p in ps <==> p in qs
    ensures PublishAll(chapter, ps) == PublishAll(chapter, qs)
  {
    PublishedAt(chapter, ps);
    PublishedAt(chapter, qs);
    forall p | p in chapter
      ensures PublishAll(chapter, ps)[p] == PublishAll(chapter, qs)[p]
    {
      if q :| q in ps && q.position == p {
        assert q in qs;
      }
    }
  }

  ghost predicate DistinctPlaces(ps: seq<(string, Publication)>) {
    forall i, j | 0 <= i < j < |ps| :: ps[i].0 != ps[j].0 || ps[i].1.position != ps[j].1.position
  }

  /** The publications of one chapter, in order. */
  function OfChapter(ps: seq<(string, Publication)>, id: string): (own: seq<Publication>)
    ensures forall q :: q in own <==> (id, q) in ps
    decreases |ps|
  {
    if ps == [] then []
    else
      assert ps == [ps[0]] + ps[1..];
      (if ps[0].0 == id then [ps[0].1] else []) + OfChapter(ps[1..], id)
  }

  lemma {:induction false} DistinctInChapter(ps: seq<(string, Publication)>, id: string)
    requires DistinctPlaces(ps)
    ensures DistinctPositions(OfChapter(ps, id))
    decreases |ps|
  {
    if ps != [] {
      DistinctInChapter(ps[1..], id);
      forall q | q in OfChapter(ps[1..], id) && ps[0].0 == id
        ensures q.position != ps[0].1.position
      {
        var k :| 1 <= k < |ps| && ps[k] == (id, q);
      }
    }
  }

  /** Chapters are published to independently. */
  lemma {:induction false} PublishedByChapter(chapters: map<string, Chapter>, ps: seq<(string, Publication)>)
    ensures PublishAllIn(chapters, ps).Keys == chapters.Keys
    ensures forall id | id in chapters :: PublishAllIn(chapters, ps)[id] == PublishAll(chapters[id], OfChapter(ps, id))
    decreases |ps|
  {
    if ps != [] {
      PublishedByChapter(PublishIn(chapters, ps[0].0, ps[0].1), ps[1..]);
      forall id | id in chapters
        ensures PublishAllIn(chapters, ps)[id] == PublishAll(chapters[id], OfChapter(ps, id))
      {
        if ps[0].0 == id {
          assert OfChapter(ps, id)[1..] == OfChapter(ps[1..], id);
        } else {
          assert OfChapter(ps, id) == OfChapter(ps[1..], id);
        }
      }
    }
  }

  /** The whole store: the same publications to distinct places of any chapters,
      completed in any order, leave it the same. */
  lemma StoreIgnoresCompletionOrder(
      chapters: map<string, Chapter>, ps: seq<(string, Publication)>, qs: seq<(string, Publication)>)
    requires DistinctPlaces(ps) && DistinctPlaces(qs)
    requires forall p :: p in ps <==> p in qs
    ensures PublishAllIn(chapters, ps) == PublishAllIn(chapters, qs)
  {
    PublishedByChapter(chapters, ps);
    PublishedByChapter(chapters, qs);
    forall id | id in chapters
      ensures PublishAllIn(chapters, ps)[id] == PublishAllIn(chapters, qs)[id]
    {
      DistinctInChapter(ps, id);
      DistinctInChapter(qs, id);
      forall q: Publication ensures q in OfChapter(ps, id) <==> q in OfChapter(qs, id) {
        assert (id, q) in ps <==> (id, q) in qs;
      }
      CompletionOrderDoesNotMatter(chapters[id], OfChapter(ps, id), OfChapter(qs, id));
    }
  }

  /** Replaying a registration changes nothing, so no published text is lost. */
  lemma {:induction false} ReregistrationChangesNothing(chapter: Chapter, units: seq<ContextUnit>)
    requires Placed(chapter)
    requires forall u | u in units :: u.At() in chapter && chapter[u.At()].itemId == u.itemId
                                      && chapter[u.At()].sourceText == u.sourceText
    ensures RegisterAll(chapter, units) == chapter
    decreases |units|
  {
    if units != [] {
      var last := units[|units| - 1];
      assert last in units;
      ReregistrationChangesNothing(chapter, units[..|units| - 1]);
    }
  }

  /** A unit is stored as it is where nothing was, or something else. */
  lemma OtherwiseStoredAsIs(chapter: Chapter, unit: ContextUnit)
    requires var p := Position(unit.sourceIndex, unit.itemOrder);
             p !in chapter || chapter[p].itemId != unit.itemId || chapter[p].sourceText != unit.sourceText
    ensures RegisterUnit(chapter, unit) == chapter[Position(unit.sourceIndex, unit.itemOrder) := unit]
  {
  }

  /** Registering a bare unit over a published one keeps the translation exactly
      when item and text are the same. */
  lemma TranslationKeptExactlyWhenSame(chapter: Chapter, unit: ContextUnit)
    requires unit.At() in chapter && chapter[unit.At()].displayedText.Some? && unit.displayedText.None?
    ensures RegisterUnit(chapter, unit)[unit.At()].displayedText == chapter[unit.At()].displayedText <==>
            chapter[unit.At()].itemId == unit.itemId && chapter[unit.At()].sourceText == unit.sourceText
  {
  }

  // ---- Reading in canonical order ----

  ghost predicate IsLeast(keys: set<Position>, least: Position) {
    least in keys && forall p | p in keys :: AtMost(least, p)
  }

  lemma {:induction false} SomeLeast(keys: set<Position>)
    requires keys != {}
    ensures exists least :: IsLeast(keys, least)
    decreases |keys|
  {
    var p :| p in keys;
    assert forall q | q in keys :: q == p || q in keys - {p};
    if keys - {p} == {} {
      assert IsLeast(keys, p);
    } else {
      SomeLeast(keys - {p});
      var other :| IsLeast(keys - {p}, other);
      assert IsLeast(keys, if AtMost(p, other) then p else other);
    }
  }

  /** The order in which an ordered map is iterated. */
  ghost function InOrder(keys: set<Position>): (order: seq<Position>)
    ensures forall p :: p in order <==> p in keys
    ensures forall i, j | 0 <= i < j < |order| :: Precedes(order[i], order[j])
    decreases |keys|
  {
    if keys == {} then []
    else
      SomeLeast(keys);
      var least :| IsLeast(keys, least);
      [least] + InOrder(keys - {least})
  }

  ghost function UnitsAt(chapter: Chapter, order: seq<Position>): (units: seq<ContextUnit>)
    requires forall p | p in order :: p in chapter
    ensures |units| == |order| && forall i | 0 <= i < |order| :: units[i] == chapter[order[i]]
  {
    seq(|order|, i requires 0 <= i < |order| => chapter[order[i]])
  }

  /** The units of one source, in item order. */
  ghost function OfSource(chapter: Chapter, source: nat): seq<ContextUnit> {
    UnitsAt(chapter, InOrder(set p | p in chapter && p.source == source))
  }

  ghost function BeforePosition(chapter: Chapter, position: Position): seq<ContextUnit> {
    UnitsAt(chapter, InOrder(set p | p in chapter && Precedes(p, position)))
  }

  function Reverse<T>(s: seq<T>): (r: seq<T>)
    ensures |r| == |s| && forall k | 0 <= k < |s| :: r[k] == s[|s| - 1 - k]
  {
    if s == [] then [] else Reverse(s[1..]) + [s[0]]
  }

  function Take<T>(s: seq<T>, n: nat): seq<T> {
    if |s| <= n then s else s[..n]
  }

  function LastOf<T>(s: seq<T>, n: nat): seq<T> {
    if |s| <= n then s else s[|s| - n..]
  }

  /** A published unit with something to say. */
  function ToUtterance(unit: ContextUnit): seq<Utterance> {
    if unit.displayedText.Some? && Trim(unit.sourceText) != "" && Trim(unit.displayedText.value) != ""
    then [Utterance(Trim(unit.sourceText), Trim(unit.displayedText.value))]
    else []
  }

  function Utterances(units: seq<ContextUnit>): seq<Utterance> {
    if units == [] then [] else ToUtterance(units[0]) + Utterances(units[1..])
  }

  /** Walks back from the position and keeps the first six utterances. */
  ghost function Preceding(chapter: Chapter, position: Position): seq<Utterance> {
    Reverse(Take(Utterances(Reverse(BeforePosition(chapter, position))), MAX_CONTEXT_UTTERANCES))
  }

  lemma {:induction false} ReverseConcat<T>(a: seq<T>, b: seq<T>)
    ensures Reverse(a + b) == Reverse(b) + Reverse(a)
  {
  }

  lemma {:induction false} UtterancesConcat(a: seq<ContextUnit>, b: seq<ContextUnit>)
    ensures Utterances(a + b) == Utterances(a) + Utterances(b)
  {
    if a == [] {
      assert a + b == b;
    } else {
      assert (a + b)[1..] == a[1..] + b;
      UtterancesConcat(a[1..], b);
    }
  }

  lemma {:induction false} UtterancesReverse(units: seq<ContextUnit>)
    ensures Utterances(Reverse(units)) == Reverse(Utterances(units))
  {
    if units != [] {
      UtterancesReverse(units[1..]);
      UtterancesConcat(Reverse(units[1..]), [units[0]]);
      ReverseConcat(ToUtterance(units[0]), Utterances(units[1..]));
      assert Reverse(ToUtterance(units[0])) == ToUtterance(units[0]);
      assert Utterances([units[0]]) == ToUtterance(units[0]) + Utterances([]);
    }
  }

  lemma TakeOfReverse<T>(s: seq<T>, n: nat)
    ensures Reverse(Take(Reverse(s), n)) == LastOf(s, n)
  {
  }

  lemma {:induction false} UtteranceComesFrom(units: seq<ContextUnit>, u: Utterance)
    ensures u in Utterances(units) <==> exists unit | unit in units :: u in ToUtterance(unit)
  {
    if units != [] {
      UtteranceComesFrom(units[1..], u);
      assert units == [units[0]] + units[1..];
    }
  }

  lemma UnitBefore(chapter: Chapter, position: Position, unit: ContextUnit)
    ensures unit in BeforePosition(chapter, position) <==>
            exists p | p in chapter :: Precedes(p, position) && chapter[p] == unit
  {
    var keys := set p | p in chapter && Precedes(p, position);
    var order, units := InOrder(keys), BeforePosition(chapter, position);
    if unit in units {
      var k :| 0 <= k < |units| && units[k] == unit;
      assert order[k] in order && order[k] in keys;
    }
    if p :| p in chapter && Precedes(p, position) && chapter[p] == unit {
      assert p in keys && p in order;
      var k :| 0 <= k < |order| && order[k] == p;
      assert units[k] == unit;
    }
  }

  /** A position at which something is said that can be context. */
  predicate SaysAt(chapter: Chapter, position: Position, p: Position, u: Utterance) {
    && p in chapter
    && (p.source < position.source || (p.source == position.source && p.order < position.order))
    && chapter[p].displayedText.Some?
    && u == Utterance(Trim(chapter[p].sourceText), Trim(chapter[p].displayedText.value))
    && u.source != "" && u.chinese != ""
  }

  lemma SaysExactly(chapter: Chapter, position: Position, p: Position, u: Utterance)
    ensures SaysAt(chapter, position, p, u) <==>
            p in chapter && Precedes(p, position) && u in ToUtterance(chapter[p])
  {
    hide Trim;
  }

  /** Who speaks before a position: just the units at earlier positions whose
      source and published text are not blank, each with both texts trimmed. */
  lemma SpeaksBefore(chapter: Chapter, position: Position, u: Utterance)
    ensures u in Utterances(BeforePosition(chapter, position)) <==> exists p :: SaysAt(chapter, position, p, u)
  {
    var units := BeforePosition(chapter, position);
    hide *;
    UtteranceComesFrom(units, u);
    if unit :| unit in units && u in ToUtterance(unit) {
      UnitBefore(chapter, position, unit);
      var p :| p in chapter && Precedes(p, position) && chapter[p] == unit;
      SaysExactly(chapter, position, p, u);
    }
    if p :| SaysAt(chapter, position, p, u) {
      SaysExactly(chapter, position, p, u);
      UnitBefore(chapter, position, chapter[p]);
    }
  }

  /** The context is the last six utterances before the position, in source order. */
  lemma PrecedingIsLastSixInOrder(chapter: Chapter, position: Position)
    ensures Preceding(chapter, position)
            == LastOf(Utterances(BeforePosition(chapter, position)), MAX_CONTEXT_UTTERANCES)
  {
    var before := BeforePosition(chapter, position);
    UtterancesReverse(before);
    TakeOfReverse(Utterances(before), MAX_CONTEXT_UTTERANCES);
  }

  // ---- The snapshot around one source ----

  ghost function Flatten(chapter: Chapter, order: seq<nat>): seq<ContextUnit> {
    if order == [] then [] else OfSource(chapter, order[0]) + Flatten(chapter, order[1..])
  }

  /** The same, each source walked backwards. */
  ghost function FlattenBackwards(chapter: Chapter, order: seq<nat>): seq<ContextUnit> {
    if order == [] then [] else Reverse(OfSource(chapter, order[0])) + FlattenBackwards(chapter, order[1..])
  }

  function PositionIn(order: seq<nat>, source: nat): (position: Option<nat>)
    ensures position.Some? <==> source in order
    ensures position.Some? ==>
              position.value < |order| && order[position.value] == source && source !in order[..position.value]
  {
    if order == [] then None
    else if order[0] == source then Some(0)
    else
      match PositionIn(order[1..], source)
      case None => None
      case Some(i) =>
        assert order[..i + 1] == [order[0]] + order[1..][..i];
        Some(i + 1)
  }

  ghost function SnapshotExcludingSource(chapter: Chapter, source: nat, order: seq<nat>): seq<ContextUnit> {
    match PositionIn(order, source)
    case None => []
    case Some(i) =>
      Reverse(Take(FlattenBackwards(chapter, Reverse(order[..i])), MAX_CONTEXT_UTTERANCES))
      + Take(Flatten(chapter, order[i + 1..]), MAX_CONTEXT_UTTERANCES)
  }

  lemma {:induction false} FlattenConcat(chapter: Chapter, a: seq<nat>, b: seq<nat>)
    ensures Flatten(chapter, a + b) == Flatten(chapter, a) + Flatten(chapter, b)
  {
    if a == [] {
      assert a + b == b;
    } else {
      assert (a + b)[1..] == a[1..] + b;
      FlattenConcat(chapter, a[1..], b);
    }
  }

  lemma {:induction false} BackwardsConcat(chapter: Chapter, a: seq<nat>, b: seq<nat>)
    ensures FlattenBackwards(chapter, a + b) == FlattenBackwards(chapter, a) + FlattenBackwards(chapter, b)
  {
    if a == [] {
      assert a + b == b;
    } else {
      assert (a + b)[1..] == a[1..] + b;
      BackwardsConcat(chapter, a[1..], b);
    }
  }

  lemma {:induction false} BackwardsIsReverse(chapter: Chapter, order: seq<nat>)
    ensures FlattenBackwards(chapter, Reverse(order)) == Reverse(Flatten(chapter, order))
  {
    if order != [] {
      BackwardsIsReverse(chapter, order[1..]);
      BackwardsConcat(chapter, Reverse(order[1..]), [order[0]]);
      ReverseConcat(OfSource(chapter, order[0]), Flatten(chapter, order[1..]));
      assert FlattenBackwards(chapter, [order[0]])
             == Reverse(OfSource(chapter, order[0])) + FlattenBackwards(chapter, []);
    }
  }

  /** With the chapter laid out as the units before, of and after the source,
      the snapshot is the six nearest on each side. */
  lemma SnapshotIsNearestOnBothSides(chapter: Chapter, source: nat, order: seq<nat>, i: nat)
    requires i < |order| && order[i] == source && source !in order[..i]
    ensures var before, after := Flatten(chapter, order[..i]), Flatten(chapter, order[i + 1..]);
            && Flatten(chapter, order) == before + OfSource(chapter, source) + after
            && SnapshotExcludingSource(chapter, source, order)
               == LastOf(before, MAX_CONTEXT_UTTERANCES) + Take(after, MAX_CONTEXT_UTTERANCES)
  {
    hide OfSource, LastOf, Take;
    var j := PositionIn(order, source).value;
    assert forall k | 0 <= k < i :: order[..i][k] == order[k];
    assert forall k | 0 <= k < j :: order[..j][k] == order[k];
    assert i == j;
    AroundOne(chapter, order, i);
    BackwardsIsReverse(chapter, order[..i]);
    TakeOfReverse(Flatten(chapter, order[..i]), MAX_CONTEXT_UTTERANCES);
  }

  lemma AroundOne(chapter: Chapter, order: seq<nat>, i: nat)
    requires i < |order|
    ensures Flatten(chapter, order)
         == Flatten(chapter, order[..i]) + OfSource(chapter, order[i]) + Flatten(chapter, order[i + 1..])
  {
    assert order == order[..i] + order[i..];
    FlattenConcat(chapter, order[..i], order[i..]);
    assert order[i..][1..] == order[i + 1..];
  }

  lemma {:induction false} FlattenHasOnlyItsSources(chapter: Chapter, order: seq<nat>, source: nat)
    requires Placed(chapter) && source !in order
    ensures forall u | u in Flatten(chapter, order) :: u.sourceIndex != source
  {
    if order != [] {
      FlattenHasOnlyItsSources(chapter, order[1..], source);
      var own := InOrder(set p | p in chapter && p.source == order[0]);
      forall u | u in OfSource(chapter, order[0])
        ensures u.sourceIndex == order[0]
      {
        var units := OfSource(chapter, order[0]);
        var k :| 0 <= k < |units| && units[k] == u;
        assert own[k] in own;
      }
    }
  }

  /** In an order without repeats nothing of the source itself is in its snapshot. */
  lemma SnapshotExcludesTheSource(chapter: Chapter, source: nat, order: seq<nat>)
    requires Placed(chapter) && forall i, j | 0 <= i < j < |order| :: order[i] != order[j]
    ensures forall u | u in SnapshotExcludingSource(chapter, source, order) :: u.sourceIndex != source
  {
    if source in order {
      var i := PositionIn(order, source).value;
      BackwardsIsReverse(chapter, order[..i]);
      TakeOfReverse(Flatten(chapter, order[..i]), MAX_CONTEXT_UTTERANCES);
      FlattenHasOnlyItsSources(chapter, order[..i], source);
      FlattenHasOnlyItsSources(chapter, order[i + 1..], source);
    }
  }
}
