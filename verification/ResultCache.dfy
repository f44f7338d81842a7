// The on-disk result cache (result_cache.rs): an index of two maps and a running
// total, and the pruning that keeps the directory within its limit.
module ResultCache {
  import opened Machine
  import opened MapSums

  /** Paths are opaque; only their order matters. */
  type Path = nat
  type Time = nat

  datatype Key = Key(time: Time, path: Path)

  datatype File = File(bytes: nat, modified: Time)

  predicate Before(a: Key, b: Key) {
    a.time < b.time || (a.time == b.time && a.path < b.path)
  }

  // ---- The index ----

  lemma EmptyAgrees()
    ensures Agree(map[], map[]) && Sum<Key>(map[]) == 0 && Sum<Path>(map[]) == 0
  {
  }

  class CacheIndex {
    var entries: map<Key, nat>
    var paths: map<Path, (Time, nat)>
    var total: nat

    constructor ()
      ensures entries == map[] && paths == map[] && total == 0
    {
      entries, paths, total := map[], map[], 0;
    }

    /** The two maps are in one-to-one agreement, and the total does not exceed
        their sum. */
    ghost predicate Consistent()
      reads this
    {
      Agree(entries, paths) && total <= Sum(entries) && total <= U64_MAX
    }

    /** The total is the sum, as it is until an addition saturates. */
    ghost predicate Exact()
      reads this
    {
      total == Sum(entries)
    }

    method Insert(path: Path, bytes: nat, modified: Time)
      requires Consistent()
      modifies this
      ensures Consistent()
      ensures paths == old(paths)[path := (modified, bytes)]
      ensures total == SaturatingAdd(SaturatingSub(old(total), IndexedBytes(old(paths), path)), bytes)
      ensures old(Exact()) ==>
                old(total) >= IndexedBytes(old(paths), path)
                && (old(total) - IndexedBytes(old(paths), path) + bytes <= U64_MAX <==> Exact())
    {
      Reindexed(entries, paths, path, modified, bytes);
      hide Agree, Sum;
      var previous := if path in paths then Some(paths[path]) else None;
      paths := paths[path := (modified, bytes)];
      if previous.Some? {
        var (time, oldBytes) := previous.value;
        entries := entries - {Key(time, path)};
        total := SaturatingSub(total, oldBytes);
      }
      entries := entries[Key(modified, path) := bytes];
      total := SaturatingAdd(total, bytes);
    }

    method PopFirst() returns (first: Key, bytes: nat)
      requires entries != map[]
      modifies this`entries
      ensures IsFirst(old(entries), first) && bytes == old(entries)[first]
      ensures entries == old(entries) - {first}
    {
      ghost var some := SomeFirst(entries);
      first :| IsFirst(entries, first);
      assert IsFirst(entries, first);
      bytes := entries[first];
      entries := entries - {first};
    }

    /** Completes an eviction after its entry was popped. */
    method Forget(first: Key, bytes: nat, ghost whole: map<Key, nat>)
      requires Agree(whole, paths) && total <= Sum(whole) && total <= U64_MAX
      requires first in whole && bytes == whole[first] && entries == whole - {first}
      modifies this
      ensures Consistent() && entries == old(entries) && paths == old(paths) - {first.path}
      ensures total == SaturatingSub(old(total), bytes)
      ensures old(total) == Sum(whole) ==> Exact()
    {
      SumWithout(whole, first);
      paths := paths - {first.path};
      total := SaturatingSub(total, bytes);
    }
  }

  function IndexedBytes(paths: map<Path, (Time, nat)>, path: Path): nat {
    if path in paths then paths[path].1 else 0
  }

  /** What replacing a path's record does to the maps and their sum. */
  lemma Reindexed(entries: map<Key, nat>, paths: map<Path, (Time, nat)>, path: Path, time: Time, bytes: nat)
    requires Agree(entries, paths)
    ensures var fewer := if path in paths then entries - {Key(paths[path].0, path)} else entries;
            && Agree(fewer[Key(time, path) := bytes], paths[path := (time, bytes)])
            && Sum(entries) == Sum(fewer) + IndexedBytes(paths, path)
            && Sum(fewer[Key(time, path) := bytes]) == Sum(fewer) + bytes
  {
    hide Sum;
    var fewer := if path in paths then entries - {Key(paths[path].0, path)} else entries;
    if path in paths {
      SumWithout(entries, Key(paths[path].0, path));
    }
    SumWith(fewer, Key(time, path), bytes);
  }

  predicate IsFirst(entries: map<Key, nat>, first: Key) {
    first in entries && forall k | k in entries :: k == first || Before(first, k)
  }

  ghost predicate Agree(entries: map<Key, nat>, paths: map<Path, (Time, nat)>) {
    && (forall p | p in paths :: Key(paths[p].0, p) in entries && entries[Key(paths[p].0, p)] == paths[p].1)
    && (forall k | k in entries :: k.path in paths && paths[k.path] == (k.time, entries[k]))
  }

  // ---- The cache directory ----

  /** What may go wrong: listing the directory, reading the new file's metadata,
      deleting a file. */
  datatype Faults = Faults(scanFails: bool, inspectFails: bool, removeFails: set<Path>)

  datatype PruneResult = Pruned | ScanFailed | InspectFailed | ExceedsLimit | RemoveFailed

  datatype StoreResult = TooLarge | Stored(result: PruneResult)

  function Sizes(disk: map<Path, File>): map<Path, nat> {
    map p | p in disk :: disk[p].bytes
  }

  predicate IsIndexed(paths: map<Path, (Time, nat)>, disk: map<Path, File>, p: Path)
    requires p in disk
  {
    p in paths && paths[p].1 == disk[p].bytes
  }

  /** The files on disk that are not indexed with their size. */
  function Missed(paths: map<Path, (Time, nat)>, disk: map<Path, File>): map<Path, File> {
    map p | p in disk && !IsIndexed(paths, disk, p) :: disk[p]
  }

  /** By how much files on disk exceed what is indexed for them. */
  function Unaccounted(paths: map<Path, (Time, nat)>, disk: map<Path, File>): map<Path, nat> {
    map p | p in disk :: SaturatingSub(disk[p].bytes, IndexedBytes(paths, p))
  }

  /** By how much the index exceeds what is on disk. */
  function Stale(paths: map<Path, (Time, nat)>, disk: map<Path, File>): map<Path, nat> {
    map p | p in paths :: SaturatingSub(paths[p].1, if p in disk then disk[p].bytes else 0)
  }

  /** Whatever the disk holds, files missed by the index make up for what they
      add beyond the indexed sum. */
  lemma {:induction false} DiskWithinIndexAndMissed(
      entries: map<Key, nat>, paths: map<Path, (Time, nat)>, disk: map<Path, File>)
    requires Agree(entries, paths)
    ensures Sum(Sizes(disk)) <= Sum(entries) + Sum(Sizes(Missed(paths, disk)))
    decreases |disk|
  {
    hide Sum, IsIndexed;
    if disk == map[] {
      assert Sizes(disk) == map[];
      SumOfNone<Path>();
    } else {
      var p :| p in disk;
      var rest := disk - {p};
      OneFileLess(disk, p);
      if IsIndexed(paths, disk, p) {
        IndexedFile(entries, paths, disk, p);
        DiskWithinIndexAndMissed(entries - {Key(paths[p].0, p)}, paths - {p}, rest);
      } else {
        SumWithout(Sizes(Missed(paths, disk)), p);
        assert Sizes(Missed(paths, disk)) - {p} == Sizes(Missed(paths, rest)) by { MissedWithout(paths, disk, p); }
        DiskWithinIndexAndMissed(entries, paths, rest);
      }
    }
  }

  lemma IndexedFile(entries: map<Key, nat>, paths: map<Path, (Time, nat)>, disk: map<Path, File>, p: Path)
    requires Agree(entries, paths) && p in disk && IsIndexed(paths, disk, p)
    ensures p in paths && Agree(entries - {Key(paths[p].0, p)}, paths - {p})
    ensures Sum(entries) == disk[p].bytes + Sum(entries - {Key(paths[p].0, p)})
    ensures Missed(paths, disk) == Missed(paths - {p}, disk - {p})
  {
    SumWithout(entries, Key(paths[p].0, p));
  }

  lemma MissedWithout(paths: map<Path, (Time, nat)>, disk: map<Path, File>, p: Path)
    requires p in disk
    ensures Missed(paths, disk) - {p} == Missed(paths, disk - {p})
  {
  }

  /** The books balance: disk and stale bytes are indexed and unaccounted bytes. */
  lemma {:induction false} BooksBalance(entries: map<Key, nat>, paths: map<Path, (Time, nat)>, disk: map<Path, File>)
    requires Agree(entries, paths)
    ensures Sum(Sizes(disk)) + Sum(Stale(paths, disk)) == Sum(entries) + Sum(Unaccounted(paths, disk))
    decreases |paths|, |disk|
  {
    hide Sum;
    if paths != map[] {
      var p :| p in paths;
      BalanceWithoutPath(entries, paths, disk, p);
      BooksBalance(entries - {Key(paths[p].0, p)}, paths - {p}, disk - {p});
    } else if disk != map[] {
      var p :| p in disk;
      OneFileLess(disk, p);
      SumWithout(Unaccounted(paths, disk), p);
      assert Unaccounted(paths, disk) - {p} == Unaccounted(paths, disk - {p});
      BooksBalance(entries, paths, disk - {p});
      assert Stale(paths, disk) == Stale(paths, disk - {p});
    } else {
      assert Sizes(disk) == map[] && Stale(paths, disk) == map[] && Unaccounted(paths, disk) == map[];
      assert entries == map[];
      SumOfNone<Key>();
      SumOfNone<Path>();
    }
  }

  lemma BalanceWithoutPath(entries: map<Key, nat>, paths: map<Path, (Time, nat)>, disk: map<Path, File>, p: Path)
    requires Agree(entries, paths) && p in paths
    ensures var k, fewer, rest := Key(paths[p].0, p), paths - {p}, disk - {p};
            && Agree(entries - {k}, fewer)
            && Sum(Sizes(disk)) + Sum(Stale(paths, disk)) - Sum(entries) - Sum(Unaccounted(paths, disk))
               == Sum(Sizes(rest)) + Sum(Stale(fewer, rest)) - Sum(entries - {k}) - Sum(Unaccounted(fewer, rest))
  {
    hide Sum;
    var k, fewer, rest := Key(paths[p].0, p), paths - {p}, disk - {p};
    SumWithout(entries, k);
    SumWithout(Stale(paths, disk), p);
    if p in disk {
      SumWithout(Sizes(disk), p);
      SumWithout(Unaccounted(paths, disk), p);
    }
    RestOfBooks(paths, disk, p);
    hide Sizes, Unaccounted, Stale, Agree;
  }

  lemma RestOfBooks(paths: map<Path, (Time, nat)>, disk: map<Path, File>, p: Path)
    requires p in paths
    ensures Stale(paths, disk) - {p} == Stale(paths - {p}, disk - {p})
    ensures Sizes(disk) - {p} == Sizes(disk - {p})
    ensures Unaccounted(paths, disk) - {p} == Unaccounted(paths - {p}, disk - {p})
    ensures p !in disk ==>
              Sizes(disk) == Sizes(disk - {p}) && Unaccounted(paths, disk) == Unaccounted(paths - {p}, disk - {p})
  {
  }

  /** The bytes an entry to be protected asks for. */
  function Asked(protected: Option<Path>, disk: map<Path, File>): nat {
    if protected.Some? && protected.value in disk then disk[protected.value].bytes else 0
  }

  function Listed(file: File): (Time, nat) {
    (file.modified, file.bytes)
  }

  function Listing(disk: map<Path, File>): map<Path, (Time, nat)> {
    map p | p in disk :: Listed(disk[p])
  }

  lemma NoFiles()
    ensures Listing(map[]) == map[] && Sizes(map[]) == map[] && Sum<Path>(map[]) == 0
  {
  }

  lemma OneFileLess(disk: map<Path, File>, path: Path)
    requires path in disk
    ensures Sum(Sizes(disk)) == disk[path].bytes + Sum(Sizes(disk - {path}))
  {
    SumWithout(Sizes(disk), path);
    assert Sizes(disk) - {path} == Sizes(disk - {path});
  }

  lemma OneFileMore(done: map<Path, File>, todo: map<Path, File>, path: Path)
    requires path in todo && done.Keys !! todo.Keys
    ensures var more, less := done[path := todo[path]], todo - {path};
            && more.Keys !! less.Keys
            && more + less == done + todo
            && Listing(more) == Listing(done)[path := Listed(todo[path])]
            && path !in Listing(done)
  {
  }

  /** Some indexed paths are gone, and with each its file; nothing else is. */
  ghost predicate TakenFromBoth(paths0: map<Path, (Time, nat)>, disk0: map<Path, File>,
                                paths: map<Path, (Time, nat)>, disk: map<Path, File>) {
    && (forall p | p in paths :: p in paths0 && paths[p] == paths0[p])
    && (forall p | p in disk :: p in disk0 && disk[p] == disk0[p])
    && (forall p | p in disk0 :: p in disk <==> p in paths || p !in paths0)
  }

  lemma NothingTaken(paths: map<Path, (Time, nat)>, disk: map<Path, File>)
    ensures TakenFromBoth(paths, disk, paths, disk)
  {
  }

  lemma OneTaken(paths0: map<Path, (Time, nat)>, disk0: map<Path, File>,
                 paths: map<Path, (Time, nat)>, disk: map<Path, File>, path: Path)
    requires TakenFromBoth(paths0, disk0, paths, disk) && path in paths
    ensures TakenFromBoth(paths0, disk0, paths - {path}, disk - {path})
  {
  }

  /** Eviction misses nothing it did not miss before. */
  lemma TakenFacts(paths0: map<Path, (Time, nat)>, disk0: map<Path, File>,
                   paths: map<Path, (Time, nat)>, disk: map<Path, File>)
    requires TakenFromBoth(paths0, disk0, paths, disk)
    ensures Missed(paths, disk).Keys == Missed(paths0, disk0).Keys * disk.Keys
    ensures forall p | p in disk0 && p in paths :: p in disk
    ensures forall p | p in disk :: p in disk0 && disk[p] == disk0[p]
  {
  }

  lemma TakenKeeps(paths0: map<Path, (Time, nat)>, disk0: map<Path, File>,
                   paths: map<Path, (Time, nat)>, disk: map<Path, File>, path: Path)
    requires TakenFromBoth(paths0, disk0, paths, disk) && path in paths
    ensures path in paths0 && paths[path] == paths0[path]
  {
  }

  lemma Overwritten(disk: map<Path, File>, target: Path, file: File)
    ensures Sum(Sizes(disk[target := file])) == Sum(Sizes(disk - {target})) + file.bytes
    ensures Sum(Sizes(disk - {target})) <= Sum(Sizes(disk))
  {
    hide Sum, Sizes;
    var more := disk[target := file];
    OneFileLess(more, target);
    assert more - {target} == disk - {target};
    if target in disk {
      OneFileLess(disk, target);
    } else {
      assert disk - {target} == disk;
    }
  }

  /** What is missed once a file was written and, unless that failed, indexed. */
  lemma MissedAfterStore(known: map<Path, (Time, nat)>, listed: map<Path, (Time, nat)>, disk: map<Path, File>,
                         target: Path, file: File, failed: bool)
    requires listed == if failed then known else known[target := Listed(file)]
    ensures var more := disk[target := file];
            Missed(listed, more).Keys ==
              if failed && !IsIndexed(known, more, target) then Missed(known, disk).Keys + {target}
              else Missed(known, disk).Keys - {target}
  {
  }

  lemma ListingMissesNothing(disk: map<Path, File>)
    ensures Missed(Listing(disk), disk) == map[]
  {
  }

  /** `left` is what remains of `all` after evicting oldest-first. */
  ghost predicate EvictedOldestFirst(all: map<Key, nat>, left: map<Key, nat>) {
    && left.Keys <= all.Keys && (forall k | k in left :: left[k] == all[k])
    && forall gone, kept | gone in all && gone !in left && kept in left ::
         gone.time < kept.time || (gone.time == kept.time && gone.path < kept.path)
  }

  /** The newest evicted entry was still one too many. */
  ghost predicate NoMoreThanNeeded(all: map<Key, nat>, left: map<Key, nat>, limit: nat) {
    left == all
    || exists last | last in all && last !in left ::
         && Sum(left) + all[last] > limit
         && forall gone | gone in all && gone !in left :: gone == last || Before(gone, last)
  }

  lemma {:induction false} SomeFirst(entries: map<Key, nat>) returns (first: Key)
    requires entries != map[]
    ensures IsFirst(entries, first)
    decreases |entries|
  {
    var k :| k in entries;
    if entries - {k} == map[] {
      first := k;
      assert forall j | j in entries :: j == k || j in entries - {k};
    } else {
      var other := SomeFirst(entries - {k});
      first := if Before(k, other) then k else other;
      assert forall j | j in entries :: j == k || j in entries - {k};
    }
  }

  class ResultCache {
    const maxBytes: nat
    const maxEntryBytes: nat
    var index: CacheIndex?
    var disk: map<Path, File>

    /** Once built, the index is consistent in itself, whatever the disk holds. */
    ghost predicate Valid()
      reads this, index
    {
      index != null ==> index.Consistent()
    }

    ghost function MissedFiles(): map<Path, File>
      reads this, index
      requires index != null
    {
      Missed(index.paths, disk)
    }

    ghost function DiskBytes(): nat
      reads this
    {
      Sum(Sizes(disk))
    }

    constructor (disk: map<Path, File>, maxBytes: nat, maxEntryBytes: nat)
      ensures Valid() && this.disk == disk && index == null
      ensures this.maxBytes == maxBytes && this.maxEntryBytes == maxEntryBytes
    {
      this.disk, this.maxBytes, this.maxEntryBytes, index := disk, maxBytes, maxEntryBytes, null;
    }

    method BuildIndex() returns (built: CacheIndex)
      ensures fresh(built) && built.Consistent()
      ensures built.paths == Listing(disk)
      ensures DiskBytes() <= U64_MAX ==> built.Exact() && built.total == DiskBytes()
    {
      hide Sum, Agree, Sizes, Listing;
      built := new CacheIndex();
      EmptyAgrees();
      NoFiles();
      var todo := disk;
      ghost var done: map<Path, File> := map[];
      assert built.Consistent() && built.Exact();
      hide CacheIndex.Consistent, CacheIndex.Exact;
      while todo != map[]
        invariant fresh(built) && built.Consistent() && built.paths == Listing(done)
        invariant done.Keys !! todo.Keys
        invariant done + todo == disk
        invariant DiskBytes() <= U64_MAX ==> built.Exact() && built.total + Sum(Sizes(todo)) == DiskBytes()
        decreases |todo|
      {
        var p :| p in todo;
        var file := todo[p];
        OneFileLess(todo, p);
        OneFileMore(done, todo, p);
        done, todo := done[p := file], todo - {p};
        built.Insert(p, file.bytes, file.modified);
      }
      assert done == done + todo;
    }

    /** Deletes the oldest entry, unless it is protected or cannot be deleted. */
    method EvictOldest(protected: Option<Path>, faults: Faults) returns (stopped: Option<PruneResult>, ghost first: Key)
      requires index != null && index.Consistent() && index.total > maxBytes
      modifies index, this`disk
      ensures index.Consistent() && (old(index.Exact()) ==> index.Exact())
      ensures IsFirst(old(index.entries), first)
      ensures first.path in old(index.paths) && old(index.paths)[first.path].0 == first.time
      ensures stopped.Some? ==>
                && index.entries == old(index.entries) && index.paths == old(index.paths)
                && index.total == old(index.total) && disk == old(disk)
                && (stopped.value.ExceedsLimit? <==> protected == Some(first.path))
                && (stopped.value.RemoveFailed? <==> protected != Some(first.path))
                && (stopped.value.RemoveFailed? ==> first.path in faults.removeFails * disk.Keys)
      ensures stopped.None? ==>
                && index.entries == old(index.entries) - {first} && index.paths == old(index.paths) - {first.path}
                && index.total <= old(index.total)
                && disk == old(disk) - {first.path} && protected != Some(first.path)
    {
      SumOfSome(index.entries);
      hide Sum;
      ghost var whole := index.entries;
      var oldest, bytes := index.PopFirst();
      first := oldest;
      if protected == Some(oldest.path) {
        index.entries := index.entries[oldest := bytes];
        assert index.entries == whole;
        return Some(ExceedsLimit), first;
      }
      if oldest.path in disk && oldest.path in faults.removeFails {
        index.entries := index.entries[oldest := bytes];
        assert index.entries == whole;
        return Some(RemoveFailed), first;
      }
      disk := disk - {oldest.path};
      index.Forget(oldest, bytes, whole);
      stopped := None;
    }

    /** Evicts from the index and the disk, oldest first, until the limit is
        met, the protected entry is next, or a file cannot be deleted. */
    method EvictToLimit(protected: Option<Path>, faults: Faults) returns (result: PruneResult)
      requires index != null && index.Consistent()
      modifies index, this`disk
      ensures index.Consistent() && (old(index.Exact()) ==> index.Exact()) && index.total <= old(index.total)
      ensures EvictedOldestFirst(old(index.entries), index.entries)
      ensures TakenFromBoth(old(index.paths), old(disk), index.paths, disk)
      ensures result.Pruned? || result.ExceedsLimit? || result.RemoveFailed?
      ensures result.Pruned? ==>
                index.total <= maxBytes && NoMoreThanNeeded(old(index.entries), index.entries, maxBytes)
      ensures old(index.total) <= maxBytes ==> result.Pruned? && index.paths == old(index.paths) && disk == old(disk)
      ensures old(index.total) <= maxBytes ==> index.total == old(index.total)
      ensures protected.Some? && protected.value in old(index.paths) ==> protected.value in index.paths
      ensures result.ExceedsLimit? ==>
                && index.total > maxBytes && protected.Some? && protected.value in index.paths
                && var own := Key(index.paths[protected.value].0, protected.value);
                   IsFirst(index.entries, own)
      ensures result.RemoveFailed? ==> index.total > maxBytes && faults.removeFails * disk.Keys != {}
    {
      hide Sum, EvictedOldestFirst, NoMoreThanNeeded, IsFirst, TakenFromBoth;
      ghost var before := index.entries;
      NothingEvicted(before, maxBytes);
      NothingTaken(index.paths, disk);
      while index.total > maxBytes
        invariant index.Consistent() && (old(index.Exact()) ==> index.Exact()) && index.total <= old(index.total)
        invariant EvictedOldestFirst(before, index.entries) && NoMoreThanNeeded(before, index.entries, maxBytes)
        invariant TakenFromBoth(old(index.paths), old(disk), index.paths, disk)
        invariant old(index.total) <= maxBytes ==> index.paths == old(index.paths) && disk == old(disk)
        invariant old(index.total) <= maxBytes ==> index.total == old(index.total)
        invariant protected.Some? && protected.value in old(index.paths) ==> protected.value in index.paths
        decreases |index.entries|
      {
        ghost var left, paths, files := index.entries, index.paths, disk;
        var stopped;
        ghost var first;
        stopped, first := EvictOldest(protected, faults);
        if stopped.Some? {
          return stopped.value;
        }
        OneEviction(before, left, first, maxBytes);
        OneTaken(old(index.paths), old(disk), paths, files, first.path);
      }
      result := Pruned;
    }

    /** Evicts until the limit holds, after indexing the directory on first use
        and the protected entry on every use. `listed` and `all` are what the
        index held when the eviction began. */
    method PruneToLimit(protected: Option<Path>, faults: Faults)
      returns (result: PruneResult, ghost listed: map<Path, (Time, nat)>, ghost all: map<Key, nat>)
      requires Valid()
      modifies this, index
      ensures Valid() && (old(index) != null ==> index == old(index))
      ensures index != null ==> index == old(index) || fresh(index)
      ensures result.ScanFailed? <==> old(index) == null && faults.scanFails
      ensures result.ScanFailed? ==> index == null && disk == old(disk)
      ensures result.InspectFailed? <==>
                && !result.ScanFailed? && protected.Some?
                && (faults.inspectFails || protected.value !in old(disk))
      ensures !result.ScanFailed? ==>
                && index != null && Agree(all, listed)
                && var known := if old(index) == null then Listing(old(disk)) else old(index.paths);
                   listed == if protected.Some? && !result.InspectFailed?
                             then known[protected.value := Listed(old(disk)[protected.value])] else known
      ensures result.InspectFailed? ==> disk == old(disk) && index.paths == listed && index.entries == all
      ensures result.InspectFailed? && old(index) != null ==> index.total == old(index.total)
      ensures !result.ScanFailed? ==>
                EvictedOldestFirst(all, index.entries) && TakenFromBoth(listed, old(disk), index.paths, disk)
      ensures result.Pruned? ==> index.total <= maxBytes && NoMoreThanNeeded(all, index.entries, maxBytes)
      ensures !result.ScanFailed? && old(index) == null && old(DiskBytes()) <= U64_MAX ==>
                index.Exact() && index.total <= old(DiskBytes())
      ensures !result.ScanFailed? && !result.InspectFailed? && old(index) == null && old(DiskBytes()) <= U64_MAX
              && old(DiskBytes()) <= maxBytes ==>
                result.Pruned? && disk == old(disk) && index.paths == listed && index.total == old(DiskBytes())
      ensures old(index) != null && old(index.Exact()) && old(index.total) + Asked(protected, old(disk)) <= U64_MAX ==>
                index.Exact() && index.total <= old(index.total) + Asked(protected, old(disk))
      ensures protected.Some? && protected.value in old(disk) && !result.InspectFailed? && !result.ScanFailed? ==>
                protected.value in disk && protected.value in index.paths
      ensures result.ExceedsLimit? ==>
                && index.total > maxBytes && protected.Some? && protected.value in index.paths
                && IsFirst(index.entries, Key(index.paths[protected.value].0, protected.value))
      ensures result.RemoveFailed? ==> index.total > maxBytes && faults.removeFails * disk.Keys != {}
    {
      hide Sum, EvictedOldestFirst, NoMoreThanNeeded, IsFirst, TakenFromBoth, Agree;
      listed, all := map[], map[];
      if index == null {
        if faults.scanFails {
          return ScanFailed, listed, all;
        }
        index := BuildIndex();
      }
      listed, all := index.paths, index.entries;
      if protected.Some? {
        if faults.inspectFails || protected.value !in disk {
          NothingEvicted(all, maxBytes);
          NothingTaken(listed, disk);
          return InspectFailed, listed, all;
        }
        index.Insert(protected.value, disk[protected.value].bytes, disk[protected.value].modified);
        listed, all := index.paths, index.entries;
      }
      result := EvictToLimit(protected, faults);
      TakenFacts(listed, old(disk), index.paths, disk);
    }

    /** Persists one result and prunes. */
    method Store(target: Path, bytes: nat, now: Time, faults: Faults) returns (result: StoreResult)
      requires Valid()
      modifies this, index
      ensures Valid() && (old(index) != null ==> index == old(index))
      ensures index != null ==> index == old(index) || fresh(index)
      ensures result.TooLarge? <==> bytes > maxEntryBytes || bytes > maxBytes
      ensures result.TooLarge? ==> disk == old(disk) && index == old(index)
      ensures result.TooLarge? && index != null ==>
                index.paths == old(index.paths) && index.entries == old(index.entries)
                  && index.total == old(index.total)
      ensures result == Stored(ScanFailed) <==> !result.TooLarge? && old(index) == null && faults.scanFails
      ensures result == Stored(InspectFailed) <==>
                !result.TooLarge? && result != Stored(ScanFailed) && faults.inspectFails
      ensures result.Stored? ==> target in disk && disk[target] == File(bytes, now)
      ensures forall p | p in disk && p != target :: p in old(disk) && disk[p] == old(disk)[p]
      // what the index misses afterwards
      ensures result == Stored(ScanFailed) ==> index == null
      ensures result.Stored? && index != null ==>
                var before := if old(index) == null then {} else old(MissedFiles().Keys);
                MissedFiles().Keys ==
                  (if result.result.InspectFailed? && old(index) != null && !IsIndexed(old(index.paths), disk, target)
                   then before + {target} else before - {target}) * disk.Keys
      // the total stays the sum while the sizes fit their counter
      ensures index == null ==> DiskBytes() <= old(DiskBytes()) + (if result.TooLarge? then 0 else bytes)
      ensures old(index) == null && index != null && old(DiskBytes()) + bytes <= U64_MAX ==>
                index.Exact() && index.total <= old(DiskBytes()) + bytes
      ensures old(index) != null && old(index.Exact()) && old(index.total) + bytes <= U64_MAX ==>
                index.Exact() && index.total <= old(index.total) + bytes
      // after an entry could not be inspected
      ensures result == Stored(InspectFailed) && old(index) != null && old(index.Exact()) ==>
                && index.paths == old(index.paths) && index.total == old(index.total)
                && (DiskBytes() <= index.total <==> Sum(Sizes(old(disk) - {target})) + bytes <= old(index.total))
      ensures result == Stored(Pruned) ==> index != null && index.total <= maxBytes
      ensures result == Stored(ExceedsLimit) ==>
                && index != null && target in index.paths && index.paths[target] == (now, bytes)
                && exists k | k in index.entries :: k != Key(now, target) && Before(Key(now, target), k)
      ensures result.Stored? && old(index) == null && !faults.scanFails && !faults.inspectFails
              && Sum(Sizes(old(disk)[target := File(bytes, now)])) <= Least(maxBytes, U64_MAX) ==>
                && result == Stored(Pruned) && disk == old(disk)[target := File(bytes, now)]
                && index.paths == Listing(disk) && index.total == DiskBytes()
    {
      hide Sum, Agree, IsFirst, TakenFromBoth, EvictedOldestFirst, NoMoreThanNeeded, Sizes, Missed;
      if bytes > maxEntryBytes || bytes > maxBytes {
        return TooLarge;
      }
      ghost var files, written := disk, disk[target := File(bytes, now)];
      ghost var known := if index == null then Listing(written) else index.paths;
      disk := disk[target := File(bytes, now)];
      Overwritten(files, target, File(bytes, now));
      var pruned;
      ghost var listed, all;
      pruned, listed, all := PruneToLimit(Some(target), faults);
      result := Stored(pruned);
      if index != null {
        TakenFacts(listed, written, index.paths, disk);
        MissedAfterStore(known, listed, files, target, File(bytes, now), pruned.InspectFailed?);
        ListingMissesNothing(written);
        assert old(index) == null ==> listed == Listing(written);
      }
      if pruned.ExceedsLimit? {
        assert index.paths[target] == (now, bytes) by { TakenKeeps(listed, written, index.paths, disk, target); }
        OverLimitIsNotAlone(index.entries, index.paths, target, index.total, maxBytes);
      }
    }

    /** Deletes an entry behind the index's back; a missing file is no error. */
    method Invalidate(target: Path, faults: Faults) returns (ok: bool)
      requires Valid()
      modifies this`disk
      ensures Valid()
      ensures ok <==> !(target in old(disk) && target in faults.removeFails)
      ensures disk == if ok then old(disk) - {target} else old(disk)
      ensures index != null ==> MissedFiles() == if ok then old(MissedFiles()) - {target} else old(MissedFiles())
      ensures DiskBytes() <= old(DiskBytes())
    {
      hide Sum;
      if target in disk && target in faults.removeFails {
        return false;
      }
      if target in disk {
        OneFileLess(disk, target);
      } else {
        assert disk - {target} == disk;
      }
      disk := disk - {target};
      ok := true;
    }

    /** The bytes on disk exceed the total by no more than the files the index
        misses, and they exceed it at all exactly when what is unaccounted for
        outweighs what is stale. */
    lemma DiskAgainstTotal()
      requires Valid() && index != null && index.Exact()
      ensures DiskBytes() <= index.total + Sum(Sizes(MissedFiles()))
      ensures MissedFiles() == map[] ==> DiskBytes() <= index.total
      ensures DiskBytes() <= index.total <==> Sum(Unaccounted(index.paths, disk)) <= Sum(Stale(index.paths, disk))
    {
      DiskWithinIndexAndMissed(index.entries, index.paths, disk);
      BooksBalance(index.entries, index.paths, disk);
      hide Sum;
      if MissedFiles() == map[] {
        assert Sizes(MissedFiles()) == map[];
        SumOfNone<Path>();
      }
    }

    /** Any sequence of stores and invalidations, with whatever failures: the
        index misses no file but those in `Uninspected`, and the bytes on disk
        never exceed the total by more than their sizes. */
    method UseSequentially(operations: seq<Operation>) returns (results: seq<StoreResult>)
      requires index == null
      modifies this
      ensures Valid() && |results| == |operations|
      ensures index != null ==> MissedFiles().Keys <= Uninspected(operations, results)
      ensures index != null && old(DiskBytes()) + BytesOf(operations) <= U64_MAX ==>
                && index.Exact()
                && DiskBytes() <= index.total + Sum(Sizes(MissedFiles()))
    {
      hide Sum;
      results := [];
      ghost var budget := old(DiskBytes()) + BytesOf(operations);
      assert operations[..0] == [];
      for i := 0 to |operations|
        invariant Valid() && |results| == i && (index != null ==> fresh(index))
        invariant index != null ==> MissedFiles().Keys <= Uninspected(operations[..i], results)
        invariant index == null ==> DiskBytes() <= old(DiskBytes()) + BytesOf(operations[..i])
        invariant index != null && budget <= U64_MAX ==>
                    index.Exact() && index.total <= old(DiskBytes()) + BytesOf(operations[..i])
      {
        BytesSoFar(operations, i);
        assert operations[..i + 1][..i] == operations[..i];
        var result := TooLarge;
        match operations[i] {
          case Keep(target, bytes, now, faults) => result := Store(target, bytes, now, faults);
          case Delete(target, faults) => var ok := Invalidate(target, faults);
        }
        results := results + [result];
        assert results[..i] + [result] == results;
      }
      assert operations[..|operations|] == operations;
      if index != null && budget <= U64_MAX {
        DiskAgainstTotal();
      }
    }
  }

  // ---- Sequences of operations ----

  datatype Operation =
    | Keep(target: Path, bytes: nat, now: Time, faults: Faults)
    | Delete(target: Path, faults: Faults)

  function BytesOf(operations: seq<Operation>): nat {
    if operations == [] then 0
    else
      var last := operations[|operations| - 1];
      BytesOf(operations[..|operations| - 1]) + if last.Keep? then last.bytes else 0
  }

  /** The entries whose last store could not be inspected. */
  function Uninspected(operations: seq<Operation>, results: seq<StoreResult>): set<Path>
    requires |operations| == |results|
    decreases |operations|
  {
    if operations == [] then {}
    else
      var last := |operations| - 1;
      var before := Uninspected(operations[..last], results[..last]);
      if operations[last].Delete? || results[last].TooLarge? then before
      else if results[last].result.InspectFailed? then before + {operations[last].target}
      else before - {operations[last].target}
  }

  lemma {:induction false} BytesSoFar(operations: seq<Operation>, i: nat)
    requires i < |operations|
    ensures BytesOf(operations[..i + 1]) <= BytesOf(operations)
    ensures BytesOf(operations[..i + 1])
            == BytesOf(operations[..i]) + (if operations[i].Keep? then operations[i].bytes else 0)
    decreases |operations|
  {
    var last := |operations| - 1;
    assert operations[..i + 1][..i] == operations[..i];
    if i < last {
      BytesSoFar(operations[..last], i);
      assert operations[..last][..i + 1] == operations[..i + 1];
    } else {
      assert operations[..i + 1] == operations;
    }
  }

  lemma SumOfOneFile(path: Path, file: File)
    ensures Sum(Sizes(map[path := file])) == file.bytes
  {
    var none: map<Path, File> := map[];
    NoFiles();
    assert none - {path} == none;
    Overwritten(none, path, file);
  }

  method OneEntry(bytes: nat) returns (cache: ResultCache)
    requires bytes <= 100
    ensures fresh(cache) && cache.index != null && fresh(cache.index) && cache.Valid()
    ensures cache.maxBytes == cache.maxEntryBytes == 100
    ensures cache.disk == map[1 := File(bytes, 0)] && cache.index.paths == Listing(cache.disk)
    ensures cache.index.Exact() && cache.index.total == bytes
  {
    hide Sum, Agree, Missed, Sizes;
    cache := new ResultCache(map[], 100, 100);
    SumOfOneFile(1, File(bytes, 0));
    NoFiles();
    var stored := cache.Store(1, bytes, 0, Faults(false, false, {}));
  }

  /** The index can miss bytes: an entry written after the index was built that
      could not be inspected. */
  method MissedEntryExceedsTotal() returns (cache: ResultCache)
    ensures fresh(cache) && cache.index != null && cache.index.Exact()
    ensures cache.index.total == 5 && cache.DiskBytes() > 5
  {
    hide Sum, Agree, Missed, Sizes;
    cache := OneEntry(5);
    SumOfOneFile(1, File(5, 0));
    assert cache.disk - {2} == cache.disk;
    var stored := cache.Store(2, 7, 1, Faults(false, true, {}));
  }

  lemma OverLimitIsNotAlone(entries: map<Key, nat>, paths: map<Path, (Time, nat)>, target: Path, total: nat, limit: nat)
    requires Agree(entries, paths) && target in paths && paths[target].1 <= limit < total <= Sum(entries)
    requires IsFirst(entries, Key(paths[target].0, target))
    ensures exists k | k in entries :: k != Key(paths[target].0, target) && Before(Key(paths[target].0, target), k)
  {
    var own := Key(paths[target].0, target);
    SumWithout(entries, own);
    if entries - {own} == map[] {
      EmptyAgrees();
    } else {
      var k :| k in entries - {own};
      assert k in entries;
    }
  }

  lemma NothingEvicted(all: map<Key, nat>, limit: nat)
    ensures EvictedOldestFirst(all, all) && NoMoreThanNeeded(all, all, limit)
  {
  }

  lemma OneEviction(all: map<Key, nat>, left: map<Key, nat>, first: Key, limit: nat)
    requires EvictedOldestFirst(all, left) && Sum(left) > limit
    requires IsFirst(left, first)
    ensures EvictedOldestFirst(all, left - {first}) && NoMoreThanNeeded(all, left - {first}, limit)
  {
    SumWithout(left, first);
    hide Sum;
    var fewer := left - {first};
    assert first in all && first !in fewer && Sum(fewer) + all[first] > limit;
    assert forall gone | gone in all && gone !in fewer :: gone == first || gone !in left;
  }
}
