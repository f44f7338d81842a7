// The import of HSK source rows (hsk-control import.rs): rows of the same word
// are merged, the result is counted, and the loader finds its counts in order.
module HskImport {
  import opened Machine
  import opened Text
  import opened Sorting
  import opened HskDataset

  /** A source row; level and frequency rank are None when they do not parse. */
  datatype Row = Row(
    level: Option<Level>,
    simplified: string,
    pinyin: string,
    glosses: string,
    simplerWords: string,
    independentlyUsable: Option<string>,
    frequencyRank: Option<Option<nat>>)

  datatype Metadata = Metadata(
    isComplete: bool,
    expectedEntryCount: Option<nat>,
    expectedLevelCounts: Option<seq<nat>>)

  // ---- Lists within a field ----

  function Pieces(value: string, piece: string): seq<string>
    decreases |value|
  {
    if value == "" then [piece]
    else if value[0] == '|' then [piece] + Pieces(value[1..], "")
    else Pieces(value[1..], piece + [value[0]])
  }

  function TrimmedNonEmpty(pieces: seq<string>): seq<string> {
    if pieces == [] then []
    else (if Trim(pieces[0]) == "" then [] else [Trim(pieces[0])]) + TrimmedNonEmpty(pieces[1..])
  }

  function Dedup(sorted: seq<string>): seq<string> {
    if |sorted| < 2 then sorted
    else if sorted[0] == sorted[1] then Dedup(sorted[1..])
    else [sorted[0]] + Dedup(sorted[1..])
  }

  function SplitList(value: string): seq<string> {
    Dedup(Sort(TrimmedNonEmpty(Pieces(value, "")), StringAtMost))
  }

  function MapNormalize(words: seq<string>, normalize: string -> string): seq<string> {
    seq(|words|, i requires 0 <= i < |words| => normalize(words[i]))
  }

  lemma {:induction false} TrimmedAreNotBlank(pieces: seq<string>)
    ensures forall s | s in TrimmedNonEmpty(pieces) :: !IsBlank(s)
  {
    if pieces != [] {
      TrimTwice(pieces[0]);
      TrimmedAreNotBlank(pieces[1..]);
    }
  }

  lemma {:induction false} DedupElements(sorted: seq<string>)
    ensures forall s :: s in Dedup(sorted) <==> s in sorted
  {
    if |sorted| >= 2 {
      DedupElements(sorted[1..]);
      assert sorted == [sorted[0]] + sorted[1..];
    }
  }

  function WithBars(pieces: seq<string>): string {
    if pieces == [] then "" else if |pieces| == 1 then pieces[0] else pieces[0] + "|" + WithBars(pieces[1..])
  }

  lemma WithBarsCons(piece: string, rest: seq<string>)
    requires rest != []
    ensures WithBars([piece] + rest) == piece + "|" + WithBars(rest)
  {
    assert ([piece] + rest)[1..] == rest;
  }

  lemma PiecesAtABar(value: string, piece: string)
    requires value != "" && value[0] == '|'
    requires Pieces(value[1..], "") != [] && WithBars(Pieces(value[1..], "")) == value[1..]
    ensures Pieces(value, piece) == [piece] + Pieces(value[1..], "")
    ensures WithBars(Pieces(value, piece)) == piece + value
  {
    var rest := Pieces(value[1..], "");
    assert Pieces(value, piece) == [piece] + rest;
    WithBarsCons(piece, rest);
    hide WithBars, Pieces;
    assert value == "|" + value[1..];
    assert piece + "|" + value[1..] == piece + ("|" + value[1..]);
  }

  lemma PiecesElsewhere(value: string, piece: string)
    requires value != "" && value[0] != '|'
    ensures Pieces(value, piece) == Pieces(value[1..], piece + [value[0]])
    ensures piece + [value[0]] + value[1..] == piece + value
  {
  }

  lemma NoMorePieces(piece: string)
    ensures Pieces("", piece) == [piece] && WithBars([piece]) == piece + ""
  {
  }

  /** The pieces are what stands between the bars. */
  lemma {:induction false} PiecesBetweenBars(value: string, piece: string)
    requires '|' !in piece
    ensures Pieces(value, piece) != [] && WithBars(Pieces(value, piece)) == piece + value
    ensures forall p | p in Pieces(value, piece) :: '|' !in p
    decreases |value|
  {
    hide *;
    if value == "" {
      NoMorePieces(piece);
    } else if value[0] == '|' {
      PiecesBetweenBars(value[1..], "");
      assert "" + value[1..] == value[1..];
      PiecesAtABar(value, piece);
    } else {
      PiecesBetweenBars(value[1..], piece + [value[0]]);
      PiecesElsewhere(value, piece);
    }
  }

  lemma {:induction false} TrimmedElements(pieces: seq<string>, s: string)
    ensures s in TrimmedNonEmpty(pieces) <==> s != "" && exists p | p in pieces :: Trim(p) == s
  {
    hide Trim;
    if pieces != [] {
      TrimmedElements(pieces[1..], s);
      assert pieces == [pieces[0]] + pieces[1..];
    }
  }

  /** A split field holds just the trimmed pieces between its bars that are not
      blank. */
  lemma SplitListExactly(value: string, s: string)
    ensures s in SplitList(value) <==> s != "" && exists p | p in Pieces(value, "") :: Trim(p) == s
  {
    hide TrimmedNonEmpty, Pieces, Dedup, Sort, Trim;
    var pieces := TrimmedNonEmpty(Pieces(value, ""));
    TrimmedElements(Pieces(value, ""), s);
    SortElements(pieces, StringAtMost);
    DedupElements(Sort(pieces, StringAtMost));
  }

  lemma SplitHasNoBlanks(value: string)
    ensures forall s | s in SplitList(value) :: !IsBlank(s)
  {
    hide TrimmedNonEmpty, Pieces, Dedup, Sort, IsBlank;
    var pieces := Pieces(value, "");
    TrimmedAreNotBlank(pieces);
    SortElements(TrimmedNonEmpty(pieces), StringAtMost);
    DedupElements(Sort(TrimmedNonEmpty(pieces), StringAtMost));
  }

  // ---- One row ----

  function Usable(value: Option<string>, isComplete: bool): Option<bool> {
    if value.None? || Trim(value.value) == "" then (if isComplete then None else Some(false))
    else
      var answer := Trim(value.value);
      if answer == "true" || answer == "1" || answer == "yes" then Some(true)
      else if answer == "false" || answer == "0" || answer == "no" then Some(false)
      else None
  }

  /** The entry of a row, or None when the row is refused. */
  function EntryOfRow(row: Row, isComplete: bool, normalize: string -> string): Option<Entry> {
    var usable := Usable(row.independentlyUsable, isComplete);
    var simplified, pinyin, glosses := normalize(row.simplified), Trim(row.pinyin), SplitList(row.glosses);
    if row.level.None? || usable.None? || row.frequencyRank.None? then None
    else if simplified == "" || pinyin == "" || glosses == [] then None
    else Some(Entry(simplified, pinyin, glosses, row.level.value, MapNormalize(SplitList(row.simplerWords), normalize),
                    usable.value, row.frequencyRank.value))
  }

  lemma EntryOfRowIsComplete(row: Row, isComplete: bool, normalize: string -> string)
    requires EntryOfRow(row, isComplete, normalize).Some?
    ensures var entry := EntryOfRow(row, isComplete, normalize).value;
            IsComplete(entry) <==> !IsBlank(entry.simplified)
  {
    hide SplitList;
    TrimTwice(row.pinyin);
    SplitHasNoBlanks(row.glosses);
  }

  predicate RowsAreAccepted(rows: seq<Row>, isComplete: bool, normalize: string -> string) {
    forall i | 0 <= i < |rows| :: EntryOfRow(rows[i], isComplete, normalize).Some?
  }

  function RowEntries(rows: seq<Row>, isComplete: bool, normalize: string -> string): (entries: seq<Entry>)
    requires RowsAreAccepted(rows, isComplete, normalize)
    ensures |entries| == |rows|
  {
    seq(|rows|, i requires 0 <= i < |rows| => EntryOfRow(rows[i], isComplete, normalize).value)
  }

  // ---- Merging ----

  /** The entry at index k is the first of those of its word at the least level. */
  predicate IsFirstLeast(entries: seq<Entry>, k: nat)
    requires k < |entries|
  {
    && (forall j | 0 <= j < k && entries[j].simplified == entries[k].simplified :: entries[k].level < entries[j].level)
    && (forall j | k < j < |entries| && entries[j].simplified == entries[k].simplified ::
        entries[k].level <= entries[j].level)
  }

  predicate KeptAt(entries: seq<Entry>, word: string, kept: Entry, k: nat)
    requires k < |entries|
  {
    IsFirstLeast(entries, k) && entries[k] == kept && kept.simplified == word
  }

  ghost predicate KeptFor(entries: seq<Entry>, word: string, kept: Entry) {
    exists k | 0 <= k < |entries| :: KeptAt(entries, word, kept, k)
  }

  /** Exactly the words of the entries, each with its first entry of least level. */
  ghost predicate IsMerged(kept: map<string, Entry>, entries: seq<Entry>) {
    && (forall word | word in kept :: KeptFor(entries, word, kept[word]))
    && (forall i | 0 <= i < |entries| :: entries[i].simplified in kept)
  }

  function Kept(kept: map<string, Entry>, entry: Entry): map<string, Entry> {
    if entry.simplified in kept && kept[entry.simplified].level <= entry.level then kept
    else kept[entry.simplified := entry]
  }

  lemma KeptForNext(entries: seq<Entry>, next: Entry, word: string, kept: Entry)
    requires KeptFor(entries, word, kept)
    ensures (next.simplified == word && next.level < kept.level) || KeptFor(entries + [next], word, kept)
  {
    var k :| 0 <= k < |entries| && KeptAt(entries, word, kept, k);
    var more := entries + [next];
    assert forall j | 0 <= j < |entries| :: more[j] == entries[j];
    assert more[|entries|] == next;
    if !(next.simplified == word && next.level < kept.level) {
      assert KeptAt(more, word, kept, k);
    }
  }

  lemma KeptForReplaced(entries: seq<Entry>, next: Entry, kept: map<string, Entry>)
    requires IsMerged(kept, entries)
    requires next.simplified in kept ==> next.level < kept[next.simplified].level
    ensures KeptFor(entries + [next], next.simplified, next)
  {
    var more, word := entries + [next], next.simplified;
    assert forall j | 0 <= j < |entries| :: more[j] == entries[j];
    forall j | 0 <= j < |entries| && more[j].simplified == word ensures next.level < more[j].level {
      assert entries[j].simplified in kept;
      LeastLevel(entries, word, kept[word], j);
    }
    assert more[|entries|] == next;
    assert KeptAt(more, word, next, |entries|);
  }

  lemma LeastLevel(entries: seq<Entry>, word: string, kept: Entry, j: nat)
    requires KeptFor(entries, word, kept) && j < |entries| && entries[j].simplified == word
    ensures kept.level <= entries[j].level
  {
    var k :| 0 <= k < |entries| && KeptAt(entries, word, kept, k);
  }

  lemma MergedNext(kept: map<string, Entry>, entries: seq<Entry>, next: Entry)
    requires IsMerged(kept, entries)
    ensures IsMerged(Kept(kept, next), entries + [next])
  {
    var more, all := Kept(kept, next), entries + [next];
    forall word | word in more ensures KeptFor(all, word, more[word]) {
      hide KeptFor;
      if word in kept && more[word] == kept[word] && !(next.simplified == word && next.level < kept[word].level) {
        KeptForNext(entries, next, word, kept[word]);
      } else {
        KeptForReplaced(entries, next, kept);
      }
    }
    forall i | 0 <= i < |all| ensures all[i].simplified in more {
      if i < |entries| {
        assert entries[i].simplified in kept;
      }
    }
  }

  lemma KeptForIsUnique(entries: seq<Entry>, word: string, a: Entry, b: Entry)
    requires KeptFor(entries, word, a) && KeptFor(entries, word, b)
    ensures a == b
  {
    var i :| 0 <= i < |entries| && KeptAt(entries, word, a, i);
    var j :| 0 <= j < |entries| && KeptAt(entries, word, b, j);
    FirstLeastIsOne(entries, word, a, i, b, j);
    FirstLeastIsOne(entries, word, b, j, a, i);
    hide KeptAt;
    KeptIsThere(entries, word, a, i);
    KeptIsThere(entries, word, b, j);
  }

  lemma KeptIsThere(entries: seq<Entry>, word: string, kept: Entry, k: nat)
    requires k < |entries| && KeptAt(entries, word, kept, k)
    ensures entries[k] == kept
  {
  }

  lemma FirstLeastIsOne(entries: seq<Entry>, word: string, a: Entry, i: nat, b: Entry, j: nat)
    requires i < |entries| && j < |entries| && KeptAt(entries, word, a, i) && KeptAt(entries, word, b, j)
    ensures i >= j
  {
  }

  // ---- The order of the artifact ----

  predicate WordAtMost(a: Entry, b: Entry) {
    if a.level != b.level then a.level < b.level else StringAtMost(a.simplified, b.simplified)
  }

  lemma WordOrderIsTotalPreorder()
    ensures TotalPreorder(WordAtMost)
  {
    forall a, b ensures WordAtMost(a, b) || WordAtMost(b, a) {
      StringOrderTotal(a.simplified, b.simplified);
    }
    forall a, b, c | WordAtMost(a, b) && WordAtMost(b, c) ensures WordAtMost(a, c) {
      if a.level == b.level == c.level {
        StringOrderTransitive(a.simplified, b.simplified, c.simplified);
      }
    }
  }

  predicate HasWord(entries: seq<Entry>, word: string) {
    exists k | 0 <= k < |entries| :: entries[k].simplified == word
  }

  /** The first entry of least level of every word, and nothing else, by level
      and then word. */
  ghost predicate IsImported(imported: seq<Entry>, entries: seq<Entry>) {
    && Ordered(imported, WordAtMost)
    && WordsDiffer(imported)
    && (forall i | 0 <= i < |imported| :: KeptFor(entries, imported[i].simplified, imported[i]))
    && (forall i | 0 <= i < |entries| :: HasWord(imported, entries[i].simplified))
  }

  predicate CountsAsExpected(metadata: Metadata, imported: seq<Entry>) {
    && (metadata.expectedEntryCount.Some? ==> metadata.expectedEntryCount.value == |imported|)
    && (metadata.expectedLevelCounts.Some? ==> metadata.expectedLevelCounts.value == LevelCountsOf(imported))
  }

  ghost predicate ImportsAs(rows: seq<Row>, metadata: Metadata, normalize: string -> string, artifact: Artifact) {
    && RowsAreAccepted(rows, metadata.isComplete, normalize)
    && IsImported(artifact.entries, RowEntries(rows, metadata.isComplete, normalize))
    && CountsAsExpected(metadata, artifact.entries)
    && artifact.auditedEntryCount == |artifact.entries|
    && artifact.auditedLevelCounts == LevelCountsOf(artifact.entries)
  }

  method LevelCounts(entries: seq<Entry>) returns (counts: seq<nat>)
    ensures counts == LevelCountsOf(entries)
  {
    counts := [0, 0, 0, 0, 0, 0];
    assert entries[..0] == [];
    for n := 0 to |entries|
      invariant counts == LevelCountsOf(entries[..n])
    {
      CountsNext(entries, n);
      var index := entries[n].level - 1;
      counts := counts[index := counts[index] + 1];
    }
    assert entries[..|entries|] == entries;
  }

  method VerifyExpectedCounts(metadata: Metadata, entries: seq<Entry>) returns (ok: bool)
    ensures ok <==> CountsAsExpected(metadata, entries)
  {
    if metadata.expectedEntryCount.Some? && metadata.expectedEntryCount.value != |entries| {
      return false;
    }
    if metadata.expectedLevelCounts.Some? {
      var actual := LevelCounts(entries);
      if actual != metadata.expectedLevelCounts.value {
        return false;
      }
    }
    return true;
  }

  /** Takes the kept entries out of the map, in any order. */
  method IntoValues(kept: map<string, Entry>) returns (values: seq<Entry>)
    requires forall word | word in kept :: kept[word].simplified == word
    ensures WordsDiffer(values)
    ensures forall e :: e in values <==> e.simplified in kept && kept[e.simplified] == e
  {
    values := [];
    var left := kept.Keys;
    while left != {}
      invariant left <= kept.Keys
      invariant WordsDiffer(values)
      invariant forall e :: e in values <==> e.simplified in kept.Keys - left && kept[e.simplified] == e
      decreases |left|
    {
      var word :| word in left;
      assert forall i | 0 <= i < |values| :: values[i] in values;
      values := values + [kept[word]];
      left := left - {word};
    }
  }

  lemma SortedWordsDiffer(values: seq<Entry>)
    requires WordsDiffer(values)
    ensures WordsDiffer(Sort(values, WordAtMost))
  {
    var sorted := Sort(values, WordAtMost);
    SortElements(values, WordAtMost);
    SameWords(sorted, values, 6);
    RepeatedWordCounts(sorted);
    RepeatedWordCounts(values);
  }

  lemma SortedValuesAreImported(values: seq<Entry>, kept: map<string, Entry>, entries: seq<Entry>)
    requires IsMerged(kept, entries) && WordsDiffer(values)
    requires forall e :: e in values <==> e.simplified in kept && kept[e.simplified] == e
    ensures IsImported(Sort(values, WordAtMost), entries)
  {
    WordOrderIsTotalPreorder();
    SortIsOrdered(values, WordAtMost);
    SortElements(values, WordAtMost);
    SortedWordsDiffer(values);
    hide Sort, WordAtMost, WordsDiffer, KeptFor, TotalPreorder, Ordered;
    OrderedValuesAreImported(Sort(values, WordAtMost), kept, entries);
  }

  lemma OrderedValuesAreImported(sorted: seq<Entry>, kept: map<string, Entry>, entries: seq<Entry>)
    requires IsMerged(kept, entries) && Ordered(sorted, WordAtMost) && WordsDiffer(sorted)
    requires forall e :: e in sorted <==> e.simplified in kept && kept[e.simplified] == e
    ensures IsImported(sorted, entries)
  {
    hide WordAtMost, WordsDiffer, KeptFor, Ordered;
    forall i | 0 <= i < |sorted| ensures KeptFor(entries, sorted[i].simplified, sorted[i]) {
      assert sorted[i] in sorted;
    }
    forall i | 0 <= i < |entries| ensures HasWord(sorted, entries[i].simplified) {
      var word := entries[i].simplified;
      assert word in kept;
      KeptWord(entries, word, kept[word]);
      assert kept[word] in sorted;
    }
  }

  lemma KeptWord(entries: seq<Entry>, word: string, kept: Entry)
    requires KeptFor(entries, word, kept)
    ensures kept.simplified == word
  {
  }

  /** Keeps the first entry of least level for each word; None for a bad row. */
  method MergeRows(rows: seq<Row>, isComplete: bool, normalize: string -> string)
    returns (r: Option<map<string, Entry>>)
    ensures r.Some? <==> RowsAreAccepted(rows, isComplete, normalize)
    ensures r.Some? ==> IsMerged(r.value, RowEntries(rows, isComplete, normalize))
  {
    var kept: map<string, Entry> := map[];
    for n := 0 to |rows|
      invariant RowsAreAccepted(rows[..n], isComplete, normalize)
      invariant IsMerged(kept, RowEntries(rows[..n], isComplete, normalize))
    {
      hide IsMerged, EntryOfRow, RowEntries;
      var entry := EntryOfRow(rows[n], isComplete, normalize);
      if entry.None? {
        return None;
      }
      MergedNext(kept, RowEntries(rows[..n], isComplete, normalize), entry.value);
      RowEntriesNext(rows, n, isComplete, normalize);
      var word := entry.value.simplified;
      if word in kept {
        if entry.value.level < kept[word].level {
          kept := kept[word := entry.value];
        }
      } else {
        kept := kept[word := entry.value];
      }
    }
    assert rows[..|rows|] == rows;
    return Some(kept);
  }

  method GenerateArtifact(rows: seq<Row>, metadata: Metadata, normalize: string -> string) returns (r: Option<Artifact>)
    ensures r.Some? ==> ImportsAs(rows, metadata, normalize, r.value)
    ensures r.None? ==> forall artifact :: !ImportsAs(rows, metadata, normalize, artifact)
  {
    hide RowsAreAccepted, RowEntries, IsMerged, Sort, WordAtMost, IsImported, CountsAsExpected, LevelCountsOf;
    var kept := MergeRows(rows, metadata.isComplete, normalize);
    if kept.None? {
      return None;
    }
    ghost var merged := RowEntries(rows, metadata.isComplete, normalize);
    MergedWords(kept.value, merged);
    var values := IntoValues(kept.value);
    var entries := Sort(values, WordAtMost);
    SortedValuesAreImported(values, kept.value, merged);
    var ok := VerifyExpectedCounts(metadata, entries);
    if !ok {
      NothingElseToImport(rows, metadata, normalize, entries);
      return None;
    }
    var counts := LevelCounts(entries);
    return Some(Artifact(|entries|, counts, entries));
  }

  lemma MergedWords(kept: map<string, Entry>, entries: seq<Entry>)
    requires IsMerged(kept, entries)
    ensures forall word | word in kept :: kept[word].simplified == word
  {
    forall word | word in kept ensures kept[word].simplified == word {
      KeptWord(entries, word, kept[word]);
    }
  }

  lemma RowEntriesNext(rows: seq<Row>, n: nat, isComplete: bool, normalize: string -> string)
    requires n < |rows| && RowsAreAccepted(rows[..n], isComplete, normalize)
    requires EntryOfRow(rows[n], isComplete, normalize).Some?
    ensures RowsAreAccepted(rows[..n + 1], isComplete, normalize)
    ensures RowEntries(rows[..n + 1], isComplete, normalize)
            == RowEntries(rows[..n], isComplete, normalize) + [EntryOfRow(rows[n], isComplete, normalize).value]
  {
    hide EntryOfRow;
    assert rows[..n + 1] == rows[..n] + [rows[n]];
  }

  lemma ImportedAmong(a: seq<Entry>, b: seq<Entry>, entries: seq<Entry>, e: Entry)
    requires IsImported(a, entries) && IsImported(b, entries) && e in a
    ensures e in b
  {
    var i :| 0 <= i < |a| && a[i] == e;
    hide IsFirstLeast, Ordered, WordsDiffer;
    var k :| 0 <= k < |entries| && KeptAt(entries, e.simplified, e, k);
    assert HasWord(b, entries[k].simplified);
    var j :| 0 <= j < |b| && b[j].simplified == entries[k].simplified;
    KeptForIsUnique(entries, e.simplified, e, b[j]);
  }

  /** The artifact does not depend on how the kept entries came out of the map. */
  lemma ImportIsDetermined(a: seq<Entry>, b: seq<Entry>, entries: seq<Entry>)
    requires IsImported(a, entries) && IsImported(b, entries)
    ensures a == b
  {
    forall e ensures e in a <==> e in b {
      if e in a { ImportedAmong(a, b, entries, e); }
      if e in b { ImportedAmong(b, a, entries, e); }
    }
    StrictlyByWord(a);
    StrictlyByWord(b);
    hide WordAtMost, Ordered, WordsDiffer, KeptFor, HasWord;
    StrictOrderIsUnique(a, b, WordAtMost);
  }

  lemma StrictlyByWord(s: seq<Entry>)
    requires Ordered(s, WordAtMost) && WordsDiffer(s)
    ensures forall i, j | 0 <= i < j < |s| :: !WordAtMost(s[j], s[i])
  {
    forall i, j | 0 <= i < j < |s| ensures !WordAtMost(s[j], s[i]) {
      if WordAtMost(s[j], s[i]) {
        assert WordAtMost(s[i], s[j]);
        StringOrderAntisymmetric(s[i].simplified, s[j].simplified);
      }
    }
  }

  lemma NothingElseToImport(rows: seq<Row>, metadata: Metadata, normalize: string -> string, imported: seq<Entry>)
    requires RowsAreAccepted(rows, metadata.isComplete, normalize)
    requires IsImported(imported, RowEntries(rows, metadata.isComplete, normalize))
    requires !CountsAsExpected(metadata, imported)
    ensures forall artifact :: !ImportsAs(rows, metadata, normalize, artifact)
  {
    hide RowsAreAccepted, IsImported, CountsAsExpected, RowEntries;
    forall artifact ensures !ImportsAs(rows, metadata, normalize, artifact) {
      if ImportsAs(rows, metadata, normalize, artifact) {
        ImportIsDetermined(artifact.entries, imported, RowEntries(rows, metadata.isComplete, normalize));
      }
    }
  }

  // ---- Import, then load ----

  predicate WordIsStable(entry: Entry, normalize: string -> string) {
    !IsBlank(entry.simplified) && normalize(entry.simplified) == entry.simplified
  }

  /** The row's normal form is not blank and normalizes to itself. */
  predicate RowIsStable(row: Row, normalize: string -> string) {
    var word := normalize(row.simplified);
    !IsBlank(word) && normalize(word) == word
  }

  lemma ImportedEntryIsComplete(rows: seq<Row>, metadata: Metadata, normalize: string -> string, artifact: Artifact,
                                i: nat)
    requires ImportsAs(rows, metadata, normalize, artifact) && i < |artifact.entries|
    ensures IsWellFormed(artifact.entries[i], normalize) <==> WordIsStable(artifact.entries[i], normalize)
  {
    hide EntryOfRow, IsComplete;
    var entries := RowEntries(rows, metadata.isComplete, normalize);
    var entry := artifact.entries[i];
    assert KeptFor(entries, entry.simplified, entry);
    var k :| 0 <= k < |entries| && KeptAt(entries, entry.simplified, entry, k);
    EntryOfRowIsComplete(rows[k], metadata.isComplete, normalize);
  }

  /** Every word of the source is kept, so stable words mean stable rows. */
  lemma WordsAreStableExactlyWhenRowsAre(
      rows: seq<Row>, metadata: Metadata, normalize: string -> string, artifact: Artifact)
    requires ImportsAs(rows, metadata, normalize, artifact)
    ensures (forall i | 0 <= i < |artifact.entries| :: WordIsStable(artifact.entries[i], normalize)) <==>
            (forall i | 0 <= i < |rows| :: RowIsStable(rows[i], normalize))
  {
    hide SplitList, IsFirstLeast, Ordered, WordsDiffer, CountsAsExpected, IsBlank;
    var entries, imported := RowEntries(rows, metadata.isComplete, normalize), artifact.entries;
    if forall i | 0 <= i < |imported| :: WordIsStable(imported[i], normalize) {
      forall i | 0 <= i < |rows| ensures RowIsStable(rows[i], normalize) {
        assert HasWord(imported, entries[i].simplified);
        var k :| 0 <= k < |imported| && imported[k].simplified == entries[i].simplified;
      }
    }
    if forall i | 0 <= i < |rows| :: RowIsStable(rows[i], normalize) {
      forall i | 0 <= i < |imported| ensures WordIsStable(imported[i], normalize) {
        assert KeptFor(entries, imported[i].simplified, imported[i]);
        var k :| 0 <= k < |entries| && KeptAt(entries, imported[i].simplified, imported[i], k);
        assert RowIsStable(rows[k], normalize);
      }
    }
  }

  /** An imported artifact passes the loader's count, level-count and duplicate
      checks always; it loads exactly when the source has rows and each row's
      word is a normal form of the loader's normalizer once normalized. */
  lemma ImportedLoadsExactlyWhenRowsAreStable(
      rows: seq<Row>, metadata: Metadata, normalize: string -> string, artifact: Artifact)
    requires ImportsAs(rows, metadata, normalize, artifact)
    ensures IsLoadable(artifact, normalize) <==>
            rows != [] && forall i | 0 <= i < |rows| :: RowIsStable(rows[i], normalize)
    ensures artifact.auditedEntryCount == |artifact.entries| && WordsDiffer(artifact.entries)
    ensures artifact.auditedLevelCounts == LevelCountsOf(artifact.entries)
  {
    EmptyOnlyFromNothing(rows, metadata, normalize, artifact);
    WordsAreStableExactlyWhenRowsAre(rows, metadata, normalize, artifact);
    hide EntryOfRow, IsWellFormed, WordIsStable, RowIsStable, IsFirstLeast, WordAtMost;
    forall i | 0 <= i < |artifact.entries|
      ensures IsWellFormed(artifact.entries[i], normalize) <==> WordIsStable(artifact.entries[i], normalize)
    {
      ImportedEntryIsComplete(rows, metadata, normalize, artifact, i);
    }
  }

  /** An import of nothing succeeds unless entries are expected, and is refused
      by the loader. */
  lemma EmptySourceImportsButDoesNotLoad(metadata: Metadata, normalize: string -> string)
    requires CountsAsExpected(metadata, [])
    ensures var artifact := Artifact(0, LevelCountsOf([]), []);
            ImportsAs([], metadata, normalize, artifact) && !IsLoadable(artifact, normalize)
  {
  }

  /** So is an import of one row whose word the normalizer would change again. */
  lemma UnstableRowImportsButDoesNotLoad(row: Row, isComplete: bool, normalize: string -> string)
    requires EntryOfRow(row, isComplete, normalize).Some? && !RowIsStable(row, normalize)
    ensures var imported := [EntryOfRow(row, isComplete, normalize).value];
            var artifact := Artifact(1, LevelCountsOf(imported), imported);
            ImportsAs([row], Metadata(isComplete, None, None), normalize, artifact) && !IsLoadable(artifact, normalize)
  {
    hide SplitList, IsBlank;
    var entry := EntryOfRow(row, isComplete, normalize).value;
    assert RowEntries([row], isComplete, normalize) == [entry];
    assert KeptAt([entry], entry.simplified, entry, 0);
    assert [entry][0].simplified == entry.simplified;
    assert !IsWellFormed([entry][0], normalize);
  }

  lemma EmptyOnlyFromNothing(rows: seq<Row>, metadata: Metadata, normalize: string -> string, artifact: Artifact)
    requires ImportsAs(rows, metadata, normalize, artifact)
    ensures artifact.entries == [] <==> rows == []
  {
    hide EntryOfRow;
    var entries := RowEntries(rows, metadata.isComplete, normalize);
    if rows != [] {
      assert HasWord(artifact.entries, entries[0].simplified);
    }
    assert artifact.entries != [] ==> KeptFor(entries, artifact.entries[0].simplified, artifact.entries[0]);
  }

  /** Some source row has the word at most at a level. */
  ghost predicate RowAtMost(rows: seq<Row>, normalize: string -> string, word: string, level: Level) {
    exists i | 0 <= i < |rows| ::
      normalize(rows[i].simplified) == word && rows[i].level.Some? && rows[i].level.value <= level
  }

  lemma RowGivesItsLevel(row: Row, isComplete: bool, normalize: string -> string)
    requires EntryOfRow(row, isComplete, normalize).Some?
    ensures var entry := EntryOfRow(row, isComplete, normalize).value;
            entry.simplified == normalize(row.simplified) && row.level == Some(entry.level)
  {
    hide SplitList;
  }

  /** From source rows to permission: a word is allowed at a level exactly when
      some source row gives it that level or a lower one. */
  lemma AllowedExactlyWhenARowSays(
      rows: seq<Row>, metadata: Metadata, normalize: string -> string, artifact: Artifact, dataset: Dataset,
      word: string, selected: Level)
    requires ImportsAs(rows, metadata, normalize, artifact) && IsDatasetOf(dataset, artifact)
    ensures dataset.IsAllowed(word, selected) <==> RowAtMost(rows, normalize, word, selected)
  {
    hide EntryOfRow, IsFirstLeast, Ordered, WordsDiffer, Sort, IsIndex, CountsAsExpected;
    var entries, imported := RowEntries(rows, metadata.isComplete, normalize), artifact.entries;
    AllowedExactlyUpToItsLevel(dataset, artifact, word, selected);
    if dataset.IsAllowed(word, selected) {
      var entry :| entry in imported && entry.simplified == word && entry.level <= selected;
      var i :| 0 <= i < |imported| && imported[i] == entry;
      assert KeptFor(entries, entry.simplified, entry);
      var k :| 0 <= k < |entries| && KeptAt(entries, entry.simplified, entry, k);
      RowGivesItsLevel(rows[k], metadata.isComplete, normalize);
      assert normalize(rows[k].simplified) == word;
    }
    if RowAtMost(rows, normalize, word, selected) {
      var i :| 0 <= i < |rows| && normalize(rows[i].simplified) == word && rows[i].level.Some?
               && rows[i].level.value <= selected;
      RowGivesItsLevel(rows[i], metadata.isComplete, normalize);
      assert HasWord(imported, entries[i].simplified);
      var k :| 0 <= k < |imported| && imported[k].simplified == entries[i].simplified;
      LeastLevel(entries, word, imported[k], i);
      assert imported[k] in imported;
    }
  }
}
