// The page surfaces of a chapter and the analyses recorded for them
// (chapter_session.rs, ChapterSession).
module ChapterSession {
  import opened Machine
  import opened Text
  import opened Sorting

  datatype Surface = Surface(sessionId: string, pageIndex: nat, sha: string, width: nat, height: nat)

  datatype Region = Region(id: string, readingOrder: nat, source: string)

  datatype Analysis = Analysis(surface: Surface, regions: seq<Region>, complete: bool)

  predicate RegionAtMost(a: Region, b: Region) {
    a.readingOrder < b.readingOrder || (a.readingOrder == b.readingOrder && StringAtMost(a.id, b.id))
  }

  lemma RegionsAreTotal()
    ensures TotalPreorder(RegionAtMost)
  {
    forall a, b
      ensures RegionAtMost(a, b) || RegionAtMost(b, a)
    {
      StringOrderTotal(a.id, b.id);
    }
    forall a, b, c | RegionAtMost(a, b) && RegionAtMost(b, c)
      ensures RegionAtMost(a, c)
    {
      if a.readingOrder == b.readingOrder == c.readingOrder {
        StringOrderTransitive(a.id, b.id, c.id);
      }
    }
  }

  // ---- Merging region lists ----

  function IndexOf(regions: seq<Region>, id: string): (index: Option<nat>)
    ensures index.Some? ==> index.value < |regions| && regions[index.value].id == id
    ensures index.None? ==> forall r | r in regions :: r.id != id
  {
    if regions == [] then None
    else if regions[0].id == id then Some(0)
    else match IndexOf(regions[1..], id) case None => None case Some(i) => Some(i + 1)
  }

  function Upsert(regions: seq<Region>, region: Region): seq<Region> {
    match IndexOf(regions, region.id)
    case Some(i) => regions[i := region]
    case None => regions + [region]
  }

  function UpsertAll(regions: seq<Region>, incoming: seq<Region>): seq<Region>
    decreases |incoming|
  {
    if incoming == [] then regions else UpsertAll(Upsert(regions, incoming[0]), incoming[1..])
  }

  function Merge(regions: seq<Region>, incoming: seq<Region>): seq<Region> {
    Sort(UpsertAll(regions, incoming), RegionAtMost)
  }

  ghost predicate UniqueIds(regions: seq<Region>) {
    forall i, j | 0 <= i < j < |regions| :: regions[i].id != regions[j].id
  }

  /** Unique ids, in order of reading order and id. */
  ghost predicate Canonical(regions: seq<Region>) {
    && UniqueIds(regions)
    && forall i, j | 0 <= i < j < |regions| ::
         || regions[i].readingOrder < regions[j].readingOrder
         || (regions[i].readingOrder == regions[j].readingOrder && StringAtMost(regions[i].id, regions[j].id))
  }

  lemma CanonicalIsOrdered(regions: seq<Region>)
    ensures Canonical(regions) <==> UniqueIds(regions) && Ordered(regions, RegionAtMost)
  {
    hide StringAtMost;
    if Canonical(regions) {
      forall i, j | 0 <= i < j < |regions| ensures RegionAtMost(regions[i], regions[j]) {
      }
    }
    if Ordered(regions, RegionAtMost) {
      assert forall i, j | 0 <= i < j < |regions| :: RegionAtMost(regions[i], regions[j]);
    }
  }

  /** The list read as a map; of repeated ids the last one counts. */
  function ById(regions: seq<Region>): map<string, Region> {
    if regions == [] then map[]
    else ById(regions[..|regions| - 1])[regions[|regions| - 1].id := regions[|regions| - 1]]
  }

  lemma {:induction false} ByIdOfUnique(regions: seq<Region>)
    requires UniqueIds(regions)
    ensures forall r | r in regions :: r.id in ById(regions) && ById(regions)[r.id] == r
    ensures forall id | id in ById(regions) :: ById(regions)[id] in regions && ById(regions)[id].id == id
    decreases |regions|
  {
    if regions != [] {
      var front, last := regions[..|regions| - 1], regions[|regions| - 1];
      ByIdOfUnique(front);
      assert forall r :: r in regions <==> r in front || r == last;
      forall r | r in front
        ensures r.id != last.id
      {
        var k :| 0 <= k < |front| && front[k] == r;
        assert regions[k] == r;
      }
    }
  }

  /** Lists of unique ids with the same elements read as the same map. */
  lemma SameElementsSameMap(a: seq<Region>, b: seq<Region>)
    requires UniqueIds(a) && UniqueIds(b) && forall r :: r in a <==> r in b
    ensures ById(a) == ById(b)
  {
    ByIdOfUnique(a);
    ByIdOfUnique(b);
    forall id
      ensures id in ById(a) <==> id in ById(b)
      ensures id in ById(a) ==> ById(a)[id] == ById(b)[id]
    {
      if id in ById(a) {
        assert ById(a)[id] in b;
      }
      if id in ById(b) {
        assert ById(b)[id] in a;
      }
    }
  }

  /** A canonical list is determined by its map. */
  lemma CanonicalIsDetermined(a: seq<Region>, b: seq<Region>)
    requires Canonical(a) && Canonical(b) && ById(a) == ById(b)
    ensures a == b
  {
    ByIdOfUnique(a);
    ByIdOfUnique(b);
    forall r
      ensures r in a <==> r in b
    {
      assert r in a ==> ById(b)[r.id] in b;
      assert r in b ==> ById(a)[r.id] in a;
    }
    StrictlyOrdered(a);
    StrictlyOrdered(b);
    CanonicalIsOrdered(a);
    CanonicalIsOrdered(b);
    StrictOrderIsUnique(a, b, RegionAtMost);
  }

  lemma StrictlyOrdered(a: seq<Region>)
    requires Canonical(a)
    ensures forall i, j | 0 <= i < j < |a| :: !RegionAtMost(a[j], a[i])
  {
    CanonicalIsOrdered(a);
    forall i, j | 0 <= i < j < |a|
      ensures !RegionAtMost(a[j], a[i])
    {
      if RegionAtMost(a[j], a[i]) {
        assert RegionAtMost(a[i], a[j]);
        StringOrderAntisymmetric(a[i].id, a[j].id);
      }
    }
  }

  lemma UpsertUnique(regions: seq<Region>, region: Region)
    requires UniqueIds(regions)
    ensures UniqueIds(Upsert(regions, region))
    ensures ById(Upsert(regions, region)) == ById(regions)[region.id := region]
  {
    match IndexOf(regions, region.id)
    case None =>
      assert (regions + [region])[..|regions|] == regions;
      assert forall i | 0 <= i < |regions| :: regions[i] in regions;
    case Some(i) => ReplacedById(regions, i, region);
  }

  lemma ReplacedById(regions: seq<Region>, i: nat, region: Region)
    requires UniqueIds(regions) && i < |regions| && regions[i].id == region.id
    ensures UniqueIds(regions[i := region])
    ensures ById(regions[i := region]) == ById(regions)[region.id := region]
  {
    var replaced := regions[i := region];
    ByIdOfUnique(regions);
    ByIdOfUnique(replaced);
    hide ById, UniqueIds;
    assert replaced[i] in replaced && regions[i] in regions;
    forall id | id in ById(replaced) && id != region.id
      ensures id in ById(regions) && ById(regions)[id] == ById(replaced)[id]
    {
      var k :| 0 <= k < |replaced| && replaced[k] == ById(replaced)[id];
      assert regions[k] in regions;
    }
    forall id | id in ById(regions) && id != region.id
      ensures id in ById(replaced)
    {
      var k :| 0 <= k < |regions| && regions[k] == ById(regions)[id];
      assert replaced[k] in replaced;
    }
  }

  lemma {:induction false} UpsertAllIsOverride(regions: seq<Region>, incoming: seq<Region>)
    requires UniqueIds(regions)
    ensures UniqueIds(UpsertAll(regions, incoming))
    ensures ById(UpsertAll(regions, incoming)) == ById(regions) + ById(incoming)
    decreases |incoming|
  {
    if incoming != [] {
      UpsertUnique(regions, incoming[0]);
      UpsertAllIsOverride(Upsert(regions, incoming[0]), incoming[1..]);
      ByIdCons(incoming);
      hide ById, Upsert;
      OverrideOneFirst(ById(regions), incoming[0].id, incoming[0], ById(incoming[1..]));
    }
  }

  lemma OverrideOneFirst<K, V>(m: map<K, V>, k: K, v: V, rest: map<K, V>)
    ensures m[k := v] + rest == m + (map[k := v] + rest)
  {
  }

  lemma DisjointOverridesCommute<K, V>(m: map<K, V>, a: map<K, V>, b: map<K, V>)
    requires a.Keys !! b.Keys
    ensures (m + a) + b == (m + b) + a
  {
  }

  lemma {:induction false} ByIdCons(regions: seq<Region>)
    requires regions != []
    ensures ById(regions) == map[regions[0].id := regions[0]] + ById(regions[1..])
    decreases |regions|
  {
    if |regions| > 1 {
      var front := regions[..|regions| - 1];
      ByIdCons(front);
      assert front[1..] == regions[1..][..|regions| - 2];
    }
  }

  /** Merging overrides by id and leaves the one canonical list. */
  lemma MergeIsOverride(regions: seq<Region>, incoming: seq<Region>)
    requires UniqueIds(regions)
    ensures Canonical(Merge(regions, incoming))
    ensures ById(Merge(regions, incoming)) == ById(regions) + ById(incoming)
  {
    var all := UpsertAll(regions, incoming);
    UpsertAllIsOverride(regions, incoming);
    RegionsAreTotal();
    SortIsOrdered(all, RegionAtMost);
    SortElements(all, RegionAtMost);
    UniqueAfterSort(all);
    CanonicalIsOrdered(Sort(all, RegionAtMost));
    SameElementsSameMap(all, Sort(all, RegionAtMost));
  }

  lemma UniqueAfterSort(all: seq<Region>)
    requires UniqueIds(all)
    ensures UniqueIds(Sort(all, RegionAtMost))
  {
    var sorted := Sort(all, RegionAtMost);
    SortElements(all, RegionAtMost);
    forall i, j | 0 <= i < j < |sorted|
      ensures sorted[i].id != sorted[j].id
    {
      if sorted[i].id == sorted[j].id {
        assert sorted[i] in all && sorted[j] in all;
        var p :| 0 <= p < |all| && all[p] == sorted[i];
        var q :| 0 <= q < |all| && all[q] == sorted[j];
        assert p == q;
        TwiceInMultiset(sorted, i, j);
        OnceInMultiset(all, p);
      }
    }
  }

  lemma TwiceInMultiset<T>(s: seq<T>, i: nat, j: nat)
    requires i < j < |s| && s[i] == s[j]
    ensures multiset(s)[s[i]] >= 2
  {
    assert s == s[..i] + [s[i]] + s[i + 1..j] + [s[j]] + s[j + 1..];
  }

  lemma OnceInMultiset(s: seq<Region>, p: nat)
    requires UniqueIds(s) && p < |s|
    ensures multiset(s)[s[p]] == 1
  {
    assert s == s[..p] + [s[p]] + s[p + 1..];
    assert s[p] !in s[..p] && s[p] !in s[p + 1..];
  }

  lemma MergeIsIdempotent(regions: seq<Region>, incoming: seq<Region>)
    requires UniqueIds(regions)
    ensures Merge(Merge(regions, incoming), incoming) == Merge(regions, incoming)
  {
    var once := Merge(regions, incoming);
    MergeIsOverride(regions, incoming);
    MergeIsOverride(once, incoming);
    CanonicalIsDetermined(Merge(once, incoming), once);
  }

  /** Batches without a common id may arrive in either order. */
  lemma DisjointBatchesCommute(regions: seq<Region>, first: seq<Region>, second: seq<Region>)
    requires UniqueIds(regions) && ById(first).Keys !! ById(second).Keys
    ensures Merge(Merge(regions, first), second) == Merge(Merge(regions, second), first)
  {
    MergeIsOverride(regions, first);
    MergeIsOverride(regions, second);
    MergeIsOverride(Merge(regions, first), second);
    MergeIsOverride(Merge(regions, second), first);
    hide Merge, ById;
    DisjointOverridesCommute(ById(regions), ById(first), ById(second));
    CanonicalIsDetermined(Merge(Merge(regions, first), second), Merge(Merge(regions, second), first));
  }

  lemma EmptyIsCanonical()
    ensures Canonical([])
  {
  }

  // ---- The session ----

  method MergeRegions(known: seq<Region>, incoming: seq<Region>) returns (regions: seq<Region>)
    ensures regions == Merge(known, incoming)
  {
    regions := known;
    for i := 0 to |incoming|
      invariant UpsertAll(regions, incoming[i..]) == UpsertAll(known, incoming)
    {
      var region := incoming[i];
      assert incoming[i..][1..] == incoming[i + 1..];
      var existing := IndexOf(regions, region.id);
      if existing.Some? {
        regions := regions[existing.value := region];
      } else {
        regions := regions + [region];
      }
    }
    regions := Sort(regions, RegionAtMost);
  }

  class Session {
    var surfaces: map<nat, Surface>
    var analyses: map<nat, Analysis>

    constructor ()
      ensures surfaces == map[] && analyses == map[] && Valid()
    {
      surfaces, analyses := map[], map[];
    }

    /** Every analysis belongs to the pixels registered at its page. */
    ghost predicate Valid()
      reads this
    {
      forall page | page in analyses ::
        && page in surfaces && analyses[page].surface.sha == surfaces[page].sha
        && Canonical(analyses[page].regions)
    }

    predicate SamePixels(surface: Surface)
      reads this
    {
      surface.pageIndex in surfaces ==> surfaces[surface.pageIndex].sha == surface.sha
    }

    method RegisterSurface(surface: Surface) returns (changed: bool)
      requires Valid()
      modifies this
      ensures Valid()
      ensures changed <==> !old(SamePixels(surface))
      ensures surfaces == old(surfaces)[surface.pageIndex := surface]
      ensures analyses == if changed then old(analyses) - {surface.pageIndex} else old(analyses)
    {
      changed := surface.pageIndex in surfaces && surfaces[surface.pageIndex].sha != surface.sha;
      if changed {
        analyses := analyses - {surface.pageIndex};
      }
      surfaces := surfaces[surface.pageIndex := surface];
    }

    /** New regions join those of the same pixels; older pixels' regions are gone. */
    method RecordAnalysis(analysis: Analysis)
      requires Valid()
      modifies this
      ensures Valid()
      ensures surfaces == old(surfaces)[analysis.surface.pageIndex := analysis.surface]
      ensures var page := analysis.surface.pageIndex;
              var kept := old(SamePixels(analysis.surface)) && page in old(analyses);
              analyses == old(analyses)[page := Analysis(
                analysis.surface,
                Merge(if kept then old(analyses)[page].regions else [], analysis.regions),
                analysis.complete || (kept && old(analyses)[page].complete))]
    {
      hide Merge;
      var page := analysis.surface.pageIndex;
      EmptyIsCanonical();
      var changed := RegisterSurface(analysis.surface);
      var entry := if page in analyses then analyses[page] else Analysis(analysis.surface, [], false);
      var regions := MergeRegions(entry.regions, analysis.regions);
      MergeIsOverride(entry.regions, analysis.regions);
      hide Canonical;
      analyses := analyses[page := Analysis(analysis.surface, regions, entry.complete || analysis.complete)];
    }
  }
}
