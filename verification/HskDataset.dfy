// The loader of the HSK word list (hsk-control dataset.rs): what it accepts and
// the cumulative level sets it builds.
module HskDataset {
  import opened Machine
  import opened Text
  import opened Sorting

  type Level = n: nat | 1 <= n <= 6 witness 1

  datatype Entry = Entry(
    simplified: string,
    pinyin: string,
    glosses: seq<string>,
    level: Level,
    simplerWords: seq<string>,
    independentlyUsable: bool,
    frequencyRank: Option<nat>)

  /** The word list with its audited counts; the header is checked elsewhere. */
  datatype Artifact = Artifact(auditedEntryCount: nat, auditedLevelCounts: seq<nat>, entries: seq<Entry>)

  datatype LoadError =
    | NoEntries | EntryCount | Incomplete(index: nat) | NotNormalized(index: nat) | Duplicate(index: nat) | LevelCounts

  datatype Loaded = Ok(dataset: Dataset) | Err(error: LoadError)

  /** The entries in order, the index of each word, and the words up to each level. */
  datatype Dataset = Dataset(entries: seq<Entry>, byWord: map<string, nat>, cumulative: seq<set<string>>) {
    function EntryOf(word: string): Option<Entry>
      requires word in byWord ==> byWord[word] < |entries|
    {
      if word in byWord then Some(entries[byWord[word]]) else None
    }

    function LevelOf(word: string): Option<Level>
      requires word in byWord ==> byWord[word] < |entries|
    {
      match EntryOf(word)
      case None => None
      case Some(entry) => Some(entry.level)
    }

    function AllowedWords(selected: Level): set<string>
      requires |cumulative| == 6
    {
      cumulative[selected - 1]
    }

    predicate IsAllowed(word: string, selected: Level)
      requires |cumulative| == 6
    {
      word in cumulative[selected - 1]
    }
  }

  // ---- The order of the entries ----

  predicate EntryAtMost(a: Entry, b: Entry) {
    if a.level != b.level then a.level < b.level
    else if a.simplified != b.simplified then StringAtMost(a.simplified, b.simplified)
    else StringAtMost(a.pinyin, b.pinyin)
  }

  lemma EntryOrderTransitive(a: Entry, b: Entry, c: Entry)
    requires EntryAtMost(a, b) && EntryAtMost(b, c)
    ensures EntryAtMost(a, c)
  {
    hide StringAtMost;
    if a.level == b.level == c.level {
      if a.simplified == b.simplified == c.simplified {
        StringOrderTransitive(a.pinyin, b.pinyin, c.pinyin);
      } else if a.simplified != b.simplified && b.simplified != c.simplified {
        StringOrderTransitive(a.simplified, b.simplified, c.simplified);
        if a.simplified == c.simplified {
          StringOrderAntisymmetric(a.simplified, b.simplified);
          assert false;
        }
      }
    }
  }

  lemma EntryOrderIsTotalPreorder()
    ensures TotalPreorder(EntryAtMost)
  {
    forall a, b ensures EntryAtMost(a, b) || EntryAtMost(b, a) {
      StringOrderTotal(a.simplified, b.simplified);
      StringOrderTotal(a.pinyin, b.pinyin);
    }
    forall a, b, c | EntryAtMost(a, b) && EntryAtMost(b, c) ensures EntryAtMost(a, c) {
      EntryOrderTransitive(a, b, c);
    }
  }

  // ---- What the loader accepts ----

  predicate IsComplete(entry: Entry) {
    && !IsBlank(entry.simplified)
    && !IsBlank(entry.pinyin)
    && entry.glosses != []
    && (forall gloss | gloss in entry.glosses :: !IsBlank(gloss))
  }

  predicate WordsDiffer(entries: seq<Entry>) {
    forall i, j | 0 <= i < j < |entries| :: entries[i].simplified != entries[j].simplified
  }

  /** How many entries there are at a level. */
  function CountAt(entries: seq<Entry>, level: nat): nat {
    if entries == [] then 0
    else (if entries[0].level == level then 1 else 0) + CountAt(entries[1..], level)
  }

  function LevelCountsOf(entries: seq<Entry>): (counts: seq<nat>)
    ensures |counts| == 6
  {
    seq(6, l requires 0 <= l < 6 => CountAt(entries, l + 1))
  }

  predicate IsWellFormed(entry: Entry, normalize: string -> string) {
    IsComplete(entry) && normalize(entry.simplified) == entry.simplified
  }

  predicate AllWellFormed(entries: seq<Entry>, normalize: string -> string) {
    forall i | 0 <= i < |entries| :: IsWellFormed(entries[i], normalize)
  }

  predicate IsLoadable(artifact: Artifact, normalize: string -> string) {
    && artifact.entries != []
    && artifact.auditedEntryCount == |artifact.entries|
    && AllWellFormed(artifact.entries, normalize)
    && WordsDiffer(artifact.entries)
    && artifact.auditedLevelCounts == LevelCountsOf(artifact.entries)
  }

  /** The words of entries up to a level. */
  function WordsUpTo(entries: seq<Entry>, level: nat): set<string> {
    set i | 0 <= i < |entries| && entries[i].level <= level :: entries[i].simplified
  }

  ghost predicate IsIndex(byWord: map<string, nat>, entries: seq<Entry>) {
    && (forall i | 0 <= i < |entries| :: entries[i].simplified in byWord && byWord[entries[i].simplified] == i)
    && (forall word | word in byWord :: byWord[word] < |entries| && entries[byWord[word]].simplified == word)
  }

  ghost predicate IsCumulative(cumulative: seq<set<string>>, entries: seq<Entry>) {
    |cumulative| == 6 && forall l | 0 <= l < 6 :: cumulative[l] == WordsUpTo(entries, l + 1)
  }

  ghost predicate IsDatasetOf(dataset: Dataset, artifact: Artifact) {
    && dataset.entries == Sort(artifact.entries, EntryAtMost)
    && IsIndex(dataset.byWord, dataset.entries)
    && IsCumulative(dataset.cumulative, dataset.entries)
  }

  // ---- Sorting changes none of the checks ----

  lemma {:induction false} InsertCount(x: Entry, s: seq<Entry>, level: nat)
    ensures CountAt(Insert(x, s, EntryAtMost), level) == CountAt([x] + s, level)
  {
    hide EntryAtMost;
    assert ([x] + s)[1..] == s;
    if s != [] && !EntryAtMost(x, s[0]) {
      InsertCount(x, s[1..], level);
      assert ([x] + s[1..])[1..] == s[1..];
      assert ([s[0]] + Insert(x, s[1..], EntryAtMost))[1..] == Insert(x, s[1..], EntryAtMost);
    }
  }

  lemma {:induction false} SortCount(s: seq<Entry>, level: nat)
    ensures CountAt(Sort(s, EntryAtMost), level) == CountAt(s, level)
  {
    if s != [] {
      InsertCount(s[0], Sort(s[1..], EntryAtMost), level);
      SortCount(s[1..], level);
      assert ([s[0]] + Sort(s[1..], EntryAtMost))[1..] == Sort(s[1..], EntryAtMost);
    }
  }

  lemma {:induction false} RepeatedWordCounts(s: seq<Entry>)
    ensures WordsDiffer(s) <==> |WordsUpTo(s, 6)| == |s|
    ensures |WordsUpTo(s, 6)| <= |s|
  {
    if s == [] {
      assert WordsUpTo(s, 6) == {};
    } else {
      var last := |s| - 1;
      var front, word := s[..last], s[last].simplified;
      RepeatedWordCounts(front);
      WordsUpToNext(s, last, 6);
      assert s[..last + 1] == s;
      LastWordDiffers(s);
      hide WordsDiffer, WordsUpTo;
      assert word !in WordsUpTo(front, 6) ==> |WordsUpTo(front, 6) + {word}| == |WordsUpTo(front, 6)| + 1;
      assert word in WordsUpTo(front, 6) ==> WordsUpTo(front, 6) + {word} == WordsUpTo(front, 6);
    }
  }

  lemma LastWordDiffers(s: seq<Entry>)
    requires s != []
    ensures var last := |s| - 1;
            WordsDiffer(s) <==> WordsDiffer(s[..last]) && s[last].simplified !in WordsUpTo(s[..last], 6)
  {
    var last := |s| - 1;
    var front := s[..last];
    assert forall i | 0 <= i < last :: front[i] == s[i];
    if s[last].simplified in WordsUpTo(front, 6) {
      var i :| 0 <= i < last && front[i].simplified == s[last].simplified;
      assert s[i].simplified == s[last].simplified;
    } else {
      forall i | 0 <= i < last ensures s[i].simplified != s[last].simplified {
        assert front[i].simplified in WordsUpTo(front, 6);
      }
    }
  }

  lemma WordsUpToNext(s: seq<Entry>, n: nat, level: nat)
    requires n < |s|
    ensures WordsUpTo(s[..n + 1], level)
            == WordsUpTo(s[..n], level) + (if s[n].level <= level then {s[n].simplified} else {})
  {
    var more, front := s[..n + 1], s[..n];
    assert forall i | 0 <= i < n :: more[i] == front[i];
    assert more[n] == s[n];
  }

  lemma SameWords(s: seq<Entry>, t: seq<Entry>, level: nat)
    requires forall e :: e in s <==> e in t
    ensures WordsUpTo(s, level) == WordsUpTo(t, level)
  {
    WordsAmong(s, t, level);
    WordsAmong(t, s, level);
  }

  lemma WordsAmong(s: seq<Entry>, t: seq<Entry>, level: nat)
    requires forall e | e in s :: e in t
    ensures WordsUpTo(s, level) <= WordsUpTo(t, level)
  {
    forall w | w in WordsUpTo(s, level) ensures w in WordsUpTo(t, level) {
      var i :| 0 <= i < |s| && s[i].level <= level && s[i].simplified == w;
      assert s[i] in t;
    }
  }

  lemma WellFormedMembers(s: seq<Entry>, t: seq<Entry>, normalize: string -> string)
    requires forall e :: e in s <==> e in t
    ensures AllWellFormed(s, normalize) <==> AllWellFormed(t, normalize)
  {
    hide IsWellFormed;
    if AllWellFormed(s, normalize) {
      forall i | 0 <= i < |t| ensures IsWellFormed(t[i], normalize) { assert t[i] in s; }
    }
    if AllWellFormed(t, normalize) {
      forall i | 0 <= i < |s| ensures IsWellFormed(s[i], normalize) { assert s[i] in t; }
    }
  }

  lemma SortingKeepsLoadable(artifact: Artifact, sorted: seq<Entry>, normalize: string -> string)
    requires sorted == Sort(artifact.entries, EntryAtMost)
    ensures |sorted| == |artifact.entries|
    ensures IsLoadable(artifact.(entries := sorted), normalize) <==> IsLoadable(artifact, normalize)
    ensures LevelCountsOf(sorted) == LevelCountsOf(artifact.entries)
    ensures AllWellFormed(sorted, normalize) <==> AllWellFormed(artifact.entries, normalize)
    ensures WordsDiffer(sorted) <==> WordsDiffer(artifact.entries)
  {
    SortElements(artifact.entries, EntryAtMost);
    SortingKeepsCounts(artifact.entries);
    hide Sort, EntryAtMost, WordsUpTo, WordsDiffer, LevelCountsOf, AllWellFormed;
    SameWords(sorted, artifact.entries, 6);
    RepeatedWordCounts(sorted);
    RepeatedWordCounts(artifact.entries);
    WellFormedMembers(sorted, artifact.entries, normalize);
  }

  lemma SortingKeepsCounts(entries: seq<Entry>)
    ensures LevelCountsOf(Sort(entries, EntryAtMost)) == LevelCountsOf(entries)
  {
    var sorted := Sort(entries, EntryAtMost);
    forall l | 0 <= l < 6 ensures LevelCountsOf(sorted)[l] == LevelCountsOf(entries)[l] {
      SortCount(entries, l + 1);
    }
  }

  // ---- Loading ----

  function Adds(entry: Entry, counts: seq<nat>): (more: seq<nat>)
    requires |counts| == 6
  {
    counts[entry.level - 1 := counts[entry.level - 1] + 1]
  }

  function AddsWord(entry: Entry, cumulative: seq<set<string>>): (more: seq<set<string>>)
    requires |cumulative| == 6
    ensures |more| == 6
  {
    seq(6, l requires 0 <= l < 6 => if l < entry.level - 1 then cumulative[l] else cumulative[l] + {entry.simplified})
  }

  /** What the loader has built from the first n entries. */
  ghost predicate Built(entries: seq<Entry>, n: nat, byWord: map<string, nat>, cumulative: seq<set<string>>,
                        counts: seq<nat>)
    requires n <= |entries|
  {
    && IsIndex(byWord, entries[..n])
    && IsCumulative(cumulative, entries[..n])
    && counts == LevelCountsOf(entries[..n])
  }

  lemma {:induction false} CountNext(entries: seq<Entry>, n: nat, level: nat)
    requires n < |entries|
    ensures CountAt(entries[..n + 1], level)
            == CountAt(entries[..n], level) + (if entries[n].level == level then 1 else 0)
    decreases n
  {
    if n > 0 {
      CountNext(entries[1..], n - 1, level);
      assert entries[..n + 1][1..] == entries[1..][..n] && entries[..n][1..] == entries[1..][..n - 1];
    } else {
      assert entries[..1][1..] == [];
    }
  }

  lemma BuiltNext(entries: seq<Entry>, n: nat, byWord: map<string, nat>, cumulative: seq<set<string>>, counts: seq<nat>)
    requires n < |entries| && Built(entries, n, byWord, cumulative, counts) && entries[n].simplified !in byWord
    ensures Built(entries, n + 1, byWord[entries[n].simplified := n], AddsWord(entries[n], cumulative),
                  Adds(entries[n], counts))
  {
    IndexNext(entries, n, byWord);
    forall l | 0 <= l < 6 ensures AddsWord(entries[n], cumulative)[l] == WordsUpTo(entries[..n + 1], l + 1) {
      hide WordsUpTo;
      WordsUpToNext(entries, n, l + 1);
    }
    CountsNext(entries, n);
  }

  lemma CountsNext(entries: seq<Entry>, n: nat)
    requires n < |entries|
    ensures LevelCountsOf(entries[..n + 1]) == Adds(entries[n], LevelCountsOf(entries[..n]))
  {
    var counts := LevelCountsOf(entries[..n]);
    forall l | 0 <= l < 6 ensures Adds(entries[n], counts)[l] == LevelCountsOf(entries[..n + 1])[l] {
      CountNext(entries, n, l + 1);
    }
  }

  lemma IndexNext(entries: seq<Entry>, n: nat, byWord: map<string, nat>)
    requires n < |entries| && IsIndex(byWord, entries[..n]) && entries[n].simplified !in byWord
    ensures IsIndex(byWord[entries[n].simplified := n], entries[..n + 1])
  {
    assert forall i | 0 <= i < n :: entries[..n + 1][i] == entries[..n][i];
    assert entries[..n + 1][n] == entries[n];
  }

  lemma BuiltNothing(entries: seq<Entry>, counts: seq<nat>)
    requires counts == [0, 0, 0, 0, 0, 0]
    ensures Built(entries, 0, map[], seq(6, _ => {}), counts)
  {
    assert entries[..0] == [];
  }

  lemma IndexedMeansRepeated(entries: seq<Entry>, n: nat, byWord: map<string, nat>)
    requires n < |entries| && IsIndex(byWord, entries[..n]) && entries[n].simplified in byWord
    ensures !WordsDiffer(entries)
  {
    var i := byWord[entries[n].simplified];
    assert entries[..n][i].simplified == entries[n].simplified;
    assert entries[i].simplified == entries[n].simplified;
  }

  lemma IndexedMeansDistinct(entries: seq<Entry>, byWord: map<string, nat>)
    requires IsIndex(byWord, entries)
    ensures WordsDiffer(entries)
  {
  }

  method FromArtifact(artifact: Artifact, normalize: string -> string) returns (r: Loaded)
    ensures r.Ok? <==> IsLoadable(artifact, normalize)
    ensures r.Ok? ==> IsDatasetOf(r.dataset, artifact)
    ensures r == Err(NoEntries) <==> artifact.entries == []
    ensures r == Err(EntryCount) <==> artifact.entries != [] && artifact.auditedEntryCount != |artifact.entries|
    ensures r.Err? && (r.error.Incomplete? || r.error.NotNormalized?) ==> !AllWellFormed(artifact.entries, normalize)
    ensures r.Err? && r.error.Duplicate? ==> !WordsDiffer(artifact.entries)
    ensures r == Err(LevelCounts) ==>
              && artifact.auditedEntryCount == |artifact.entries| > 0
              && AllWellFormed(artifact.entries, normalize) && WordsDiffer(artifact.entries)
              && artifact.auditedLevelCounts != LevelCountsOf(artifact.entries)
  {
    var entries := Sort(artifact.entries, EntryAtMost);
    SortingKeepsLoadable(artifact, entries, normalize);
    hide Built, WordsDiffer, LevelCountsOf, Sort, Adds, AddsWord, IsIndex, IsCumulative, EntryAtMost;
    hide IsBlank, AllWellFormed;
    if entries == [] {
      return Err(NoEntries);
    }
    if artifact.auditedEntryCount != |entries| {
      return Err(EntryCount);
    }
    var byWord: map<string, nat> := map[];
    var cumulative: seq<set<string>>, counts: seq<nat> := seq(6, _ => {}), [0, 0, 0, 0, 0, 0];
    BuiltNothing(entries, counts);
    NoneIllFormed(entries, normalize);
    for n := 0 to |entries|
      invariant |cumulative| == 6 && |counts| == 6
      invariant Built(entries, n, byWord, cumulative, counts)
      invariant AllWellFormed(entries[..n], normalize)
    {
      var entry := entries[n];
      if !IsComplete(entry) {
        IllFormed(entries, n, normalize);
        return Err(Incomplete(n));
      }
      if normalize(entry.simplified) != entry.simplified {
        IllFormed(entries, n, normalize);
        return Err(NotNormalized(n));
      }
      WellFormedNext(entries, n, normalize);
      if entry.simplified in byWord {
        BuiltIndex(entries, n, byWord, cumulative, counts);
        IndexedMeansRepeated(entries, n, byWord);
        return Err(Duplicate(n));
      }
      BuiltNext(entries, n, byWord, cumulative, counts);
      byWord := byWord[entry.simplified := n];
      counts := Counted(entry, counts);
      cumulative := WithWord(entry, cumulative);
    }
    assert entries[..|entries|] == entries;
    BuiltIndex(entries, |entries|, byWord, cumulative, counts);
    IndexedMeansDistinct(entries, byWord);
    if counts != artifact.auditedLevelCounts {
      return Err(LevelCounts);
    }
    return Ok(Dataset(entries, byWord, cumulative));
  }

  method Counted(entry: Entry, counts: seq<nat>) returns (more: seq<nat>)
    requires |counts| == 6
    ensures more == Adds(entry, counts) && |more| == 6
  {
    more := counts[entry.level - 1 := counts[entry.level - 1] + 1];
  }

  method WithWord(entry: Entry, cumulative: seq<set<string>>) returns (more: seq<set<string>>)
    requires |cumulative| == 6
    ensures more == AddsWord(entry, cumulative) && |more| == 6
  {
    more := cumulative;
    for l := entry.level - 1 to 6
      invariant |more| == 6
      invariant forall k | 0 <= k < 6 ::
                  more[k] == if entry.level - 1 <= k < l then cumulative[k] + {entry.simplified} else cumulative[k]
    {
      more := more[l := more[l] + {entry.simplified}];
    }
  }

  lemma BuiltIndex(entries: seq<Entry>, n: nat, byWord: map<string, nat>, cumulative: seq<set<string>>,
                   counts: seq<nat>)
    requires n <= |entries| && Built(entries, n, byWord, cumulative, counts)
    ensures IsIndex(byWord, entries[..n]) && IsCumulative(cumulative, entries[..n])
            && counts == LevelCountsOf(entries[..n])
  {
  }

  lemma NoneIllFormed(entries: seq<Entry>, normalize: string -> string)
    ensures AllWellFormed(entries[..0], normalize)
  {
  }

  lemma IllFormed(entries: seq<Entry>, n: nat, normalize: string -> string)
    requires n < |entries| && !IsWellFormed(entries[n], normalize)
    ensures !AllWellFormed(entries, normalize)
  {
  }

  lemma WellFormedNext(entries: seq<Entry>, n: nat, normalize: string -> string)
    requires n < |entries| && AllWellFormed(entries[..n], normalize) && IsWellFormed(entries[n], normalize)
    ensures AllWellFormed(entries[..n + 1], normalize)
  {
    assert entries[..n + 1] == entries[..n] + [entries[n]];
  }

  /** The entries are by level, then word, then pinyin. */
  lemma EntriesAreInOrder(dataset: Dataset, artifact: Artifact)
    requires IsDatasetOf(dataset, artifact)
    ensures Ordered(dataset.entries, EntryAtMost)
    ensures forall i, j | 0 <= i < j < |dataset.entries| ::
              dataset.entries[i].level <= dataset.entries[j].level
  {
    EntryOrderIsTotalPreorder();
    SortIsOrdered(artifact.entries, EntryAtMost);
    hide Sort;
    forall i, j | 0 <= i < j < |dataset.entries| ensures dataset.entries[i].level <= dataset.entries[j].level {
      assert EntryAtMost(dataset.entries[i], dataset.entries[j]);
    }
  }

  // ---- The level sets ----

  /** The sets and the level comparison agree: a word is allowed at a level
      exactly when its entry's level is at most that level, and then the artifact
      has an entry for it there. */
  lemma AllowedExactlyUpToItsLevel(dataset: Dataset, artifact: Artifact, word: string, selected: Level)
    requires IsDatasetOf(dataset, artifact)
    ensures dataset.IsAllowed(word, selected) <==>
            dataset.LevelOf(word).Some? && dataset.LevelOf(word).value <= selected
    ensures dataset.IsAllowed(word, selected) <==>
            exists entry | entry in artifact.entries :: entry.simplified == word && entry.level <= selected
  {
    var entries := dataset.entries;
    SortElements(artifact.entries, EntryAtMost);
    assert dataset.cumulative[selected - 1] == WordsUpTo(entries, selected);
    if dataset.IsAllowed(word, selected) {
      var i :| 0 <= i < |entries| && entries[i].level <= selected && entries[i].simplified == word;
      assert dataset.byWord[word] == i;
      assert entries[i] in artifact.entries;
    }
    if entry :| entry in artifact.entries && entry.simplified == word && entry.level <= selected {
      assert entry in entries;
    }
  }

  lemma LevelSetsAreNested(dataset: Dataset, artifact: Artifact, low: Level, high: Level)
    requires IsDatasetOf(dataset, artifact) && low <= high
    ensures dataset.AllowedWords(low) <= dataset.AllowedWords(high)
  {
    assert dataset.cumulative[low - 1] == WordsUpTo(dataset.entries, low);
    assert dataset.cumulative[high - 1] == WordsUpTo(dataset.entries, high);
  }

  /** The sum of the first n counts. */
  function PrefixSum(counts: seq<nat>, n: nat): nat
    requires n <= |counts|
  {
    if n == 0 then 0 else PrefixSum(counts, n - 1) + counts[n - 1]
  }

  function CountUpTo(entries: seq<Entry>, level: nat): nat {
    if level == 0 then 0 else CountUpTo(entries, level - 1) + CountAt(entries, level)
  }

  lemma {:induction false} PrefixSumCounts(entries: seq<Entry>, n: nat)
    requires n <= 6
    ensures PrefixSum(LevelCountsOf(entries), n) == CountUpTo(entries, n)
  {
    if n > 0 {
      PrefixSumCounts(entries, n - 1);
    }
  }

  lemma {:induction false} CountUpToNext(entries: seq<Entry>, n: nat, level: nat)
    requires n < |entries|
    ensures CountUpTo(entries[..n + 1], level)
            == CountUpTo(entries[..n], level) + (if entries[n].level <= level then 1 else 0)
    decreases level
  {
    if level > 0 {
      CountUpToNext(entries, n, level - 1);
      CountNext(entries, n, level);
    }
  }

  lemma {:induction false} CountUpToNothing(level: nat)
    ensures CountUpTo([], level) == 0
  {
    if level > 0 {
      CountUpToNothing(level - 1);
    }
  }

  lemma WordIsNew(entries: seq<Entry>, n: nat, level: nat)
    requires n < |entries| && WordsDiffer(entries)
    ensures entries[n].simplified !in WordsUpTo(entries[..n], level)
  {
    assert forall i | 0 <= i < n :: entries[..n][i] == entries[i];
  }

  lemma {:induction false} WordsUpToCount(entries: seq<Entry>, n: nat, level: nat)
    requires n <= |entries| && WordsDiffer(entries)
    ensures |WordsUpTo(entries[..n], level)| == CountUpTo(entries[..n], level)
  {
    if n == 0 {
      assert entries[..0] == [];
      assert WordsUpTo([], level) == {};
      CountUpToNothing(level);
    } else {
      WordsUpToCount(entries, n - 1, level);
      WordIsNew(entries, n - 1, level);
      hide WordsUpTo, WordsDiffer, CountUpTo;
      WordsUpToNext(entries, n - 1, level);
      CountUpToNext(entries, n - 1, level);
    }
  }

  /** The size of a level set is the sum of the audited counts up to its level. */
  lemma LevelSetSizeIsAudited(dataset: Dataset, artifact: Artifact, normalize: string -> string, selected: Level)
    requires IsLoadable(artifact, normalize) && IsDatasetOf(dataset, artifact)
    ensures |dataset.AllowedWords(selected)| == PrefixSum(artifact.auditedLevelCounts, selected)
  {
    SortingKeepsLoadable(artifact, dataset.entries, normalize);
    hide Sort, EntryAtMost, IsIndex, AllWellFormed, WordsDiffer, CountUpTo, PrefixSum, LevelCountsOf;
    WordsUpToCount(dataset.entries, |dataset.entries|, selected);
    assert dataset.entries[..|dataset.entries|] == dataset.entries;
    PrefixSumCounts(dataset.entries, selected);
  }
}
