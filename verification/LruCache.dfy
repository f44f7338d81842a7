// The byte-bounded, least-recently-used caches: DecodedImageCache
// (decoded_cache.rs) and TranslationCache (pipeline_adapter.rs) differ only in
// how they size a value. Both refine a list of entries from oldest to newest.
module LruCache {
  import opened Machine
  import opened MapSums

  datatype Entry<V> = Entry(value: V, bytes: nat, lastUsed: nat)

  datatype Item<V> = Item(key: string, value: V, bytes: nat)

  // ---- The recency list ----

  function Front<T>(s: seq<T>): seq<T>
    requires s != []
  {
    s[..|s| - 1]
  }

  function Last<T>(s: seq<T>): T
    requires s != []
  {
    s[|s| - 1]
  }

  function Total<V>(items: seq<Item<V>>): nat {
    if items == [] then 0 else Total(Front(items)) + Last(items).bytes
  }

  function Find<V>(items: seq<Item<V>>, key: string): Option<Item<V>> {
    if items == [] then None
    else if Last(items).key == key then Some(Last(items))
    else Find(Front(items), key)
  }

  function WithoutKey<V>(items: seq<Item<V>>, key: string): seq<Item<V>> {
    if items == [] then []
    else WithoutKey(Front(items), key) + if Last(items).key == key then [] else [Last(items)]
  }

  /** Reading a value makes its entry the newest. */
  function Touched<V>(items: seq<Item<V>>, key: string): seq<Item<V>> {
    match Find(items, key)
    case None => items
    case Some(item) => WithoutKey(items, key) + [item]
  }

  function DropOldest<V>(items: seq<Item<V>>, limit: nat): seq<Item<V>> {
    if Total(items) <= limit || items == [] then items else DropOldest(items[1..], limit)
  }

  function Inserted<V>(items: seq<Item<V>>, item: Item<V>, limit: nat): seq<Item<V>> {
    if item.bytes > limit then items else DropOldest(WithoutKey(items, item.key) + [item], limit)
  }

  /** Eviction drops the shortest run of oldest entries that restores the limit. */
  lemma {:induction false} DropsShortestOldestPrefix<V>(items: seq<Item<V>>, limit: nat) returns (dropped: nat)
    ensures dropped <= |items| && DropOldest(items, limit) == items[dropped..]
    ensures Total(items[dropped..]) <= limit
    ensures forall d | 0 <= d < dropped :: Total(items[d..]) > limit
    decreases |items|
  {
    assert items[0..] == items;
    if Total(items) <= limit || items == [] {
      dropped := 0;
    } else {
      var d := DropsShortestOldestPrefix(items[1..], limit);
      dropped := d + 1;
      assert items[1..][d..] == items[dropped..];
      forall e | 0 < e < dropped
        ensures Total(items[e..]) > limit
      {
        assert items[1..][e - 1..] == items[e..];
      }
    }
  }

  /** The inserted entry is never the victim of its own insertion. */
  lemma InsertedSurvives<V>(items: seq<Item<V>>, item: Item<V>, limit: nat)
    requires item.bytes <= limit
    ensures var after := Inserted(items, item, limit);
            after != [] && Last(after) == item && Total(after) <= limit
  {
    var all := WithoutKey(items, item.key) + [item];
    var dropped := DropsShortestOldestPrefix(all, limit);
    assert all[|all| - 1..] == [item];
    assert Front([item]) == [];
    assert dropped <= |all| - 1;
  }

  lemma {:induction false} TotalOfSuffix<V>(items: seq<Item<V>>, i: nat, j: nat)
    requires i <= j <= |items|
    ensures Total(items[j..]) <= Total(items[i..])
    decreases |items|
  {
    if j < |items| {
      TotalOfSuffix(Front(items), i, j);
      assert Front(items)[i..] == Front(items[i..]) && Front(items)[j..] == Front(items[j..]);
    }
  }

  ghost predicate DistinctKeys<V>(items: seq<Item<V>>) {
    forall i, j | 0 <= i < j < |items| :: items[i].key != items[j].key
  }

  lemma LastStays<V>(items: seq<Item<V>>, key: string)
    requires items != [] && Last(items).key != key
    ensures Find(items, key) == Find(Front(items), key)
    ensures WithoutKey(items, key) == WithoutKey(Front(items), key) + [Last(items)]
    ensures items == Front(items) + [Last(items)]
  {
  }

  lemma {:induction false} WithoutOtherKey<V>(items: seq<Item<V>>, key: string)
    requires forall i | 0 <= i < |items| :: items[i].key != key
    ensures WithoutKey(items, key) == items
    decreases |items|
  {
    if items != [] {
      LastStays(items, key);
      hide WithoutKey;
      WithoutOtherKey(Front(items), key);
    }
  }

  /** Taking out a key takes out its one place. */
  lemma {:induction false} WithoutKeyAt<V>(items: seq<Item<V>>, key: string, i: nat)
    requires DistinctKeys(items) && i < |items| && items[i].key == key
    ensures WithoutKey(items, key) == items[..i] + items[i + 1..]
    decreases |items|
  {
    var front := Front(items);
    if i == |items| - 1 {
      WithoutOtherKey(front, key);
      assert items[..i] + items[i + 1..] == front;
    } else {
      LastStays(items, key);
      hide WithoutKey;
      WithoutKeyAt(front, key, i);
      assert items[i + 1..] == front[i + 1..] + [Last(items)];
      assert items[..i] == front[..i];
    }
  }

  /** What an insertion makes of the list: the key's old place, if any, is left
      out, the new entry comes last, and the shortest sufficient run of oldest
      entries goes. */
  lemma InsertedIs<V>(items: seq<Item<V>>, item: Item<V>, limit: nat) returns (kept: seq<Item<V>>, dropped: nat)
    requires DistinctKeys(items) && item.bytes <= limit
    ensures (exists i | 0 <= i < |items| :: items[i].key == item.key && kept == items[..i] + items[i + 1..])
            || ((forall i | 0 <= i < |items| :: items[i].key != item.key) && kept == items)
    ensures dropped <= |kept| && Inserted(items, item, limit) == (kept + [item])[dropped..]
    ensures Total((kept + [item])[dropped..]) <= limit
    ensures forall d | 0 <= d < dropped :: Total((kept + [item])[d..]) > limit
  {
    hide WithoutKey, DropOldest, Total;
    kept := WithoutKey(items, item.key);
    if forall i | 0 <= i < |items| :: items[i].key != item.key {
      WithoutOtherKey(items, item.key);
    } else {
      var i :| 0 <= i < |items| && items[i].key == item.key;
      WithoutKeyAt(items, item.key, i);
    }
    dropped := DropsShortestOldestPrefix(kept + [item], limit);
    assert (kept + [item])[|kept|..] == [item];
    TotalOfOne(item);
  }

  lemma TotalOfOne<V>(item: Item<V>)
    ensures Total([item]) == item.bytes
  {
    assert Front([item]) == [];
  }

  // ---- The map behind the list ----

  /** The map holds just the listed entries, and the stamps, the newest of which
      is at most `clock`, increase along the list. */
  ghost predicate Agree<V>(entries: map<string, Entry<V>>, items: seq<Item<V>>, clock: nat)
    decreases |items|
  {
    if items == [] then entries == map[]
    else
      var newest := Last(items);
      && newest.key in entries
      && var entry := entries[newest.key];
         && entry.value == newest.value && entry.bytes == newest.bytes && 0 < entry.lastUsed <= clock
         && Agree(entries - {newest.key}, Front(items), entry.lastUsed - 1)
  }

  lemma AgreeAppended<V>(entries: map<string, Entry<V>>, items: seq<Item<V>>, clock: nat, item: Item<V>)
    requires Agree(entries, items, clock) && item.key !in entries
    ensures Agree(entries[item.key := Entry(item.value, item.bytes, clock + 1)], items + [item], clock + 1)
    ensures Total(items + [item]) == Total(items) + item.bytes
  {
    var more := entries[item.key := Entry(item.value, item.bytes, clock + 1)];
    assert more - {item.key} == entries;
    assert Front(items + [item]) == items;
  }

  lemma {:induction false} AbsentKey<V>(entries: map<string, Entry<V>>, items: seq<Item<V>>, clock: nat, key: string)
    requires Agree(entries, items, clock) && key !in entries
    ensures Find(items, key) == None && WithoutKey(items, key) == items
    decreases |items|
  {
    if items != [] {
      var newest := Last(items);
      LastStays(items, key);
      hide Find, WithoutKey;
      AbsentKey(entries - {newest.key}, Front(items), entries[newest.key].lastUsed - 1, key);
    }
  }

  lemma {:induction false} FindPresentKey<V>(entries: map<string, Entry<V>>, items: seq<Item<V>>, clock: nat,
                                             key: string)
    requires Agree(entries, items, clock) && key in entries
    ensures Find(items, key) == Some(Item(key, entries[key].value, entries[key].bytes))
    ensures entries[key].lastUsed <= clock
    ensures Total(items) == Total(WithoutKey(items, key)) + entries[key].bytes
    decreases |items|
  {
    var newest := Last(items);
    var others, stamp := entries - {newest.key}, entries[newest.key].lastUsed;
    var rest := WithoutKey(Front(items), key);
    if key == newest.key {
      AbsentKey(others, Front(items), stamp - 1, key);
      assert rest + [] == rest;
    } else {
      FindPresentKey(others, Front(items), stamp - 1, key);
      assert Front(rest + [newest]) == rest;
    }
  }

  lemma {:induction false} TakeOutPresentKey<V>(entries: map<string, Entry<V>>, items: seq<Item<V>>, clock: nat,
                                                key: string)
    requires Agree(entries, items, clock) && key in entries
    ensures Agree(entries - {key}, WithoutKey(items, key), clock)
    decreases |items|
  {
    var newest := Last(items);
    var others, stamp := entries - {newest.key}, entries[newest.key].lastUsed;
    var rest := WithoutKey(Front(items), key);
    if key == newest.key {
      AbsentKey(others, Front(items), stamp - 1, key);
      AgreeLater(others, Front(items), stamp - 1, clock);
      assert rest + [] == rest;
    } else {
      TakeOutPresentKey(others, Front(items), stamp - 1, key);
      var less := entries - {key};
      assert less - {newest.key} == others - {key};
      assert less[newest.key] == entries[newest.key];
      hide WithoutKey;
      NewestOnTop(less, rest, newest, clock);
    }
  }

  lemma NewestOnTop<V>(entries: map<string, Entry<V>>, rest: seq<Item<V>>, newest: Item<V>, clock: nat)
    requires newest.key in entries && entries[newest.key].value == newest.value
    requires entries[newest.key].bytes == newest.bytes && 0 < entries[newest.key].lastUsed <= clock
    requires Agree(entries - {newest.key}, rest, entries[newest.key].lastUsed - 1)
    ensures Agree(entries, rest + [newest], clock)
  {
    assert Front(rest + [newest]) == rest;
  }

  /** Looking a key up and taking it out, on both sides. */
  lemma AgreeOnKey<V>(entries: map<string, Entry<V>>, items: seq<Item<V>>, clock: nat, key: string)
    requires Agree(entries, items, clock)
    ensures key !in entries ==> Find(items, key) == None && WithoutKey(items, key) == items
    ensures key in entries ==>
              && Find(items, key) == Some(Item(key, entries[key].value, entries[key].bytes))
              && entries[key].lastUsed <= clock
              && Agree(entries - {key}, WithoutKey(items, key), clock)
              && Total(items) == Total(WithoutKey(items, key)) + entries[key].bytes
  {
    hide *;
    if key in entries {
      FindPresentKey(entries, items, clock, key);
      TakeOutPresentKey(entries, items, clock, key);
    } else {
      AbsentKey(entries, items, clock, key);
    }
  }

  lemma {:induction false} AgreeLater<V>(entries: map<string, Entry<V>>, items: seq<Item<V>>, clock: nat, later: nat)
    requires Agree(entries, items, clock) && clock <= later
    ensures Agree(entries, items, later)
  {
  }

  /** Only the head of the list carries the smallest stamp. */
  lemma {:induction false} OldestIsHead<V>(entries: map<string, Entry<V>>, items: seq<Item<V>>, clock: nat,
                                           oldest: string)
    requires Agree(entries, items, clock) && IsOldest(entries, oldest)
    ensures items != [] && WithoutKey(items, oldest) == items[1..]
    decreases |items|
  {
    var newest := Last(items);
    var others, stamp := entries - {newest.key}, entries[newest.key].lastUsed;
    if |items| == 1 {
      assert others == map[] && oldest !in others;
      assert WithoutKey(Front(items), oldest) == [];
    } else {
      var second := Last(Front(items));
      assert second.key in others && others[second.key].lastUsed < stamp;
      assert oldest in others;
      OldestIsHead(others, Front(items), stamp - 1, oldest);
      assert items[1..] == Front(items)[1..] + [newest];
    }
  }

  /** An entry the search for the least stamp may come up with. */
  predicate IsOldest<V>(entries: map<string, Entry<V>>, oldest: string) {
    oldest in entries && forall key | key in entries :: entries[oldest].lastUsed <= entries[key].lastUsed
  }

  lemma {:induction false} SomeOldest<V>(entries: map<string, Entry<V>>) returns (oldest: string)
    requires entries != map[]
    ensures IsOldest(entries, oldest)
    decreases |entries|
  {
    var key :| key in entries;
    var others := entries - {key};
    assert forall k | k in entries :: k == key || k in others;
    if others == map[] {
      oldest := key;
    } else {
      oldest := SomeOldest(others);
      if entries[key].lastUsed < entries[oldest].lastUsed {
        oldest := key;
      }
    }
  }

  // ---- Sizes ----

  function Sizes<V>(entries: map<string, Entry<V>>): map<string, nat> {
    map key | key in entries :: entries[key].bytes
  }

  ghost function Bytes<V>(entries: map<string, Entry<V>>): nat {
    Sum(Sizes(entries))
  }

  lemma BytesWithout<V>(entries: map<string, Entry<V>>, key: string)
    requires key in entries
    ensures Bytes(entries) == entries[key].bytes + Bytes(entries - {key})
  {
    hide Sum;
    SumWithout(Sizes(entries), key);
    assert Sizes(entries) - {key} == Sizes(entries - {key});
  }

  lemma BytesWith<V>(entries: map<string, Entry<V>>, key: string, entry: Entry<V>)
    requires key !in entries
    ensures Bytes(entries[key := entry]) == Bytes(entries) + entry.bytes
  {
    BytesWithout(entries[key := entry], key);
    assert entries[key := entry] - {key} == entries;
  }

  lemma NoBytes<V>(entries: map<string, Entry<V>>)
    requires entries == map[]
    ensures Bytes(entries) == 0
  {
    assert Sizes(entries) == map[];
  }

  lemma {:induction false} BytesAreTotal<V>(entries: map<string, Entry<V>>, items: seq<Item<V>>, clock: nat)
    requires Agree(entries, items, clock)
    ensures Bytes(entries) == Total(items)
    decreases |items|
  {
    hide Bytes;
    if items == [] {
      NoBytes(entries);
    } else {
      var newest := Last(items);
      BytesWithout(entries, newest.key);
      BytesAreTotal(entries - {newest.key}, Front(items), entries[newest.key].lastUsed - 1);
    }
  }

  function BytesAt<V>(entries: map<string, Entry<V>>, key: string): nat {
    if key in entries then entries[key].bytes else 0
  }

  /** What is gone was used no later than anything left. */
  ghost predicate OldestFirst<V>(before: map<string, Entry<V>>, after: map<string, Entry<V>>) {
    && after.Keys <= before.Keys && (forall k | k in after :: after[k] == before[k])
    && forall gone, kept | gone in before && gone !in after && kept in after ::
         before[gone].lastUsed <= before[kept].lastUsed
  }

  lemma NothingGone<V>(entries: map<string, Entry<V>>)
    ensures OldestFirst(entries, entries)
  {
  }

  lemma OneMoreGone<V>(before: map<string, Entry<V>>, after: map<string, Entry<V>>, oldest: string)
    requires OldestFirst(before, after) && IsOldest(after, oldest)
    ensures OldestFirst(before, after - {oldest})
  {
  }

  lemma UsedSinceWith<V>(entries: map<string, Entry<V>>, key: string, entry: Entry<V>, stamp: nat)
    requires entry.lastUsed >= stamp
    ensures Bytes(UsedSince(entries[key := entry], stamp)) == Bytes(UsedSince(entries - {key}, stamp)) + entry.bytes
  {
    hide Bytes;
    var since := UsedSince(entries - {key}, stamp);
    BytesWith(since, key, entry);
    assert since[key := entry] == UsedSince(entries[key := entry], stamp);
  }

  /** The entries last used at a stamp or later. */
  function UsedSince<V>(entries: map<string, Entry<V>>, stamp: nat): map<string, Entry<V>> {
    map key | key in entries && entries[key].lastUsed >= stamp :: entries[key]
  }

  /** The list from an item on is what was used since. */
  lemma {:induction false} AgreeSuffix<V>(entries: map<string, Entry<V>>, items: seq<Item<V>>, clock: nat, i: nat)
    requires Agree(entries, items, clock) && i < |items|
    ensures items[i].key in entries
    ensures Agree(UsedSince(entries, entries[items[i].key].lastUsed), items[i..], clock)
    decreases |items|
  {
    var newest := Last(items);
    var others, stamp := entries - {newest.key}, entries[newest.key].lastUsed;
    StampsAtMost(others, Front(items), stamp - 1);
    if i == |items| - 1 {
      var since := UsedSince(entries, stamp);
      forall key | key in since
        ensures key == newest.key
      {
        assert key != newest.key ==> key in others;
      }
      assert since - {newest.key} == map[];
      assert items[i..] == [newest] && Front([newest]) == [];
    } else {
      AgreeSuffix(others, Front(items), stamp - 1, i);
      var first := others[Front(items)[i].key].lastUsed;
      assert UsedSince(entries, first) - {newest.key} == UsedSince(others, first);
      assert items[i..] == Front(items)[i..] + [newest];
      NewestOnTop(UsedSince(entries, first), Front(items)[i..], newest, clock);
    }
  }

  lemma {:induction false} StampsAtMost<V>(entries: map<string, Entry<V>>, items: seq<Item<V>>, clock: nat)
    requires Agree(entries, items, clock)
    ensures forall key | key in entries :: entries[key].lastUsed <= clock
    decreases |items|
  {
    if items != [] {
      var newest := Last(items);
      StampsAtMost(entries - {newest.key}, Front(items), entries[newest.key].lastUsed - 1);
      assert forall key | key in entries :: key == newest.key || key in entries - {newest.key};
    }
  }

  predicate Lists<V>(items: seq<Item<V>>, key: string) {
    exists i | 0 <= i < |items| :: items[i].key == key
  }

  lemma {:induction false} ListsTheKeys<V>(entries: map<string, Entry<V>>, items: seq<Item<V>>, clock: nat)
    requires Agree(entries, items, clock)
    ensures forall key :: Lists(items, key) <==> key in entries
    ensures DistinctKeys(items)
    decreases |items|
  {
    if items != [] {
      var newest := Last(items);
      var front, others := Front(items), entries - {newest.key};
      ListsTheKeys(others, front, entries[newest.key].lastUsed - 1);
      forall key
        ensures Lists(items, key) <==> key in entries
      {
        if Lists(front, key) {
          var i :| 0 <= i < |front| && front[i].key == key;
          assert items[i].key == key;
        }
        if Lists(items, key) && key != newest.key {
          var i :| 0 <= i < |items| && items[i].key == key;
          assert front[i].key == key;
        }
        assert key == newest.key ==> items[|items| - 1].key == key;
      }
      forall i | 0 <= i < |front|
        ensures items[i].key != newest.key
      {
        assert front[i] == items[i];
        assert Lists(front, front[i].key);
      }
    }
  }

  /** An entry goes exactly when it and all newer ones exceed the limit. */
  lemma GoneExactlyWhen<V>(before: map<string, Entry<V>>, items: seq<Item<V>>, clock: nat,
                           after: map<string, Entry<V>>, limit: nat, key: string)
    requires Agree(before, items, clock) && Agree(after, DropOldest(items, limit), clock) && key in before
    ensures key !in after <==> Bytes(UsedSince(before, before[key].lastUsed)) > limit
  {
    ListsTheKeys(before, items, clock);
    ListsTheKeys(after, DropOldest(items, limit), clock);
    assert Lists(items, key);
    var i :| 0 <= i < |items| && items[i].key == key;
    var dropped := DropsShortestOldestPrefix(items, limit);
    AgreeSuffix(before, items, clock, i);
    BytesAreTotal(UsedSince(before, before[key].lastUsed), items[i..], clock);
    hide Agree, Total, Bytes, UsedSince, DropOldest;
    if i >= dropped {
      TotalOfSuffix(items, dropped, i);
      assert items[dropped..][i - dropped].key == key;
      assert Lists(items[dropped..], key);
    } else {
      DroppedIsNotListed(items, dropped, i);
    }
  }

  lemma DroppedIsNotListed<V>(items: seq<Item<V>>, dropped: nat, i: nat)
    requires DistinctKeys(items) && i < dropped <= |items|
    ensures !Lists(items[dropped..], items[i].key)
  {
    assert forall j | 0 <= j < |items[dropped..]| :: items[dropped..][j] == items[dropped + j];
  }

  // ---- The cache ----

  class ByteBoundedCache<V> {
    const maxBytes: nat
    var entries: map<string, Entry<V>>
    var retainedBytes: nat
    var clock: nat
    ghost var recency: seq<Item<V>>

    constructor (maxBytes: nat)
      ensures Valid() && Exact() && Refines() && this.maxBytes == maxBytes
      ensures entries == map[] && recency == [] && clock == 0
    {
      this.maxBytes := maxBytes;
      entries, retainedBytes, clock, recency := map[], 0, 0, [];
      new;
      NoBytes(entries);
    }

    /** Kept at all times, even when a counter has saturated. */
    ghost predicate Valid()
      reads this
    {
      && retainedBytes <= maxBytes && retainedBytes <= Bytes(entries)
      && clock <= U64_MAX && forall key | key in entries :: entries[key].lastUsed <= clock
    }

    /** The retained bytes are the sum of the entries' sizes. */
    ghost predicate Exact()
      reads this
    {
      retainedBytes == Bytes(entries)
    }

    /** The entries are those of the recency list, stamped in its order. */
    ghost predicate Refines()
      reads this
    {
      Agree(entries, recency, clock)
    }

    method Get(key: string) returns (value: Option<V>)
      requires Valid()
      modifies this
      ensures Valid() && clock == SaturatingAdd(old(clock), 1)
      ensures value == if key in old(entries) then Some(old(entries)[key].value) else None
      ensures entries == if key in old(entries) then old(entries)[key := old(entries)[key].(lastUsed := clock)]
                         else old(entries)
      ensures retainedBytes == old(retainedBytes) && (old(Exact()) ==> Exact())
      ensures old(Refines()) && old(clock) < U64_MAX ==>
                && Refines() && recency == Touched(old(recency), key)
                && value == match Find(old(recency), key) case None => None case Some(item) => Some(item.value)
    {
      hide Agree, Find, WithoutKey, Bytes;
      ghost var agrees := Refines() && clock < U64_MAX;
      if agrees {
        AgreeOnKey(entries, recency, clock, key);
      }
      clock := SaturatingAdd(clock, 1);
      if key !in entries {
        if agrees {
          AgreeLater(entries, recency, old(clock), clock);
        }
        return None;
      }
      var entry := entries[key];
      value := Some(entry.value);
      ghost var others, newer := entries - {key}, entry.(lastUsed := clock);
      assert others[key := newer] == entries[key := newer];
      BytesWithout(entries, key);
      BytesWith(others, key, newer);
      if agrees {
        AgreeAppended(others, WithoutKey(recency, key), old(clock), Item(key, entry.value, entry.bytes));
      }
      entries := entries[key := entry.(lastUsed := clock)];
      recency := Touched(recency, key);
    }

    /** Puts an entry in its key's place, whatever the limit. */
    method Place(key: string, value: V, bytes: nat)
      requires Valid()
      modifies this
      ensures retainedBytes <= Bytes(entries) && clock == SaturatingAdd(old(clock), 1)
      ensures entries == old(entries)[key := Entry(value, bytes, clock)]
      ensures retainedBytes == SaturatingAdd(SaturatingSub(old(retainedBytes), BytesAt(old(entries), key)), bytes)
      ensures old(Exact()) && old(retainedBytes) + bytes <= U64_MAX ==> Exact()
      ensures old(Refines()) && old(clock) < U64_MAX ==>
                Refines() && recency == WithoutKey(old(recency), key) + [Item(key, value, bytes)]
    {
      hide Agree, Total, Find, WithoutKey, DropOldest, Bytes;
      ghost var agrees := Refines() && clock < U64_MAX;
      if agrees {
        AgreeOnKey(entries, recency, clock, key);
      }
      clock := SaturatingAdd(clock, 1);
      if key in entries {
        BytesWithout(entries, key);
        retainedBytes := SaturatingSub(retainedBytes, entries[key].bytes);
        entries := entries - {key};
        recency := WithoutKey(recency, key);
      }
      if agrees {
        AgreeAppended(entries, recency, old(clock), Item(key, value, bytes));
      }
      BytesWith(entries, key, Entry(value, bytes, clock));
      retainedBytes := SaturatingAdd(retainedBytes, bytes);
      entries := entries[key := Entry(value, bytes, clock)];
      recency := recency + [Item(key, value, bytes)];
    }

    method Insert(key: string, value: V, bytes: nat)
      requires Valid()
      modifies this
      ensures Valid()
      ensures bytes > maxBytes ==>
                entries == old(entries) && clock == old(clock) && retainedBytes == old(retainedBytes)
                && recency == old(recency)
      ensures bytes <= maxBytes ==> clock == SaturatingAdd(old(clock), 1)
      ensures forall k | k in entries && k != key :: k in old(entries) && entries[k] == old(entries)[k]
      ensures bytes <= maxBytes && key in entries ==> entries[key] == Entry(value, bytes, clock)
      ensures bytes <= maxBytes && key !in entries ==>
                old(clock) == U64_MAX
                && exists k | k in old(entries) && k != key :: old(entries)[k].lastUsed == U64_MAX
      ensures old(Exact()) && old(retainedBytes) + bytes <= U64_MAX ==> Exact()
      ensures old(Refines()) && old(clock) < U64_MAX ==> Refines()
      ensures old(Refines()) && old(clock) < U64_MAX && old(Exact()) && old(retainedBytes) + bytes <= U64_MAX ==>
                recency == Inserted(old(recency), Item(key, value, bytes), maxBytes)
      // what goes: nothing if all fits, the least recently used otherwise, and
      // while the counters fit just those that exceed the limit with all newer ones
      ensures bytes <= maxBytes
              && SaturatingAdd(SaturatingSub(old(retainedBytes), BytesAt(old(entries), key)), bytes) <= maxBytes ==>
                entries == old(entries)[key := Entry(value, bytes, clock)]
      ensures bytes <= maxBytes ==> OldestFirst(old(entries)[key := Entry(value, bytes, clock)], entries)
      ensures bytes <= maxBytes && old(Refines()) && old(clock) < U64_MAX
              && old(Exact()) && old(retainedBytes) + bytes <= U64_MAX ==>
                forall k | k in old(entries) && k != key ::
                  k !in entries <==>
                    Bytes(UsedSince(old(entries) - {key}, old(entries)[k].lastUsed)) + bytes > maxBytes
    {
      hide Agree, Total, Find, WithoutKey, DropOldest, Bytes, OldestFirst, UsedSince;
      if bytes > maxBytes {
        return;
      }
      ghost var before := entries;
      Place(key, value, bytes);
      ghost var placed, list := entries, recency;
      EvictToLimit(key);
      if old(Refines()) && old(clock) < U64_MAX && old(Exact()) && old(retainedBytes) + bytes <= U64_MAX {
        forall k | k in before && k != key
          ensures k !in entries <==> Bytes(UsedSince(before - {key}, before[k].lastUsed)) + bytes > maxBytes
        {
          GoneExactlyWhen(placed, list, clock, entries, maxBytes, k);
          UsedSinceWith(before, key, Entry(value, bytes, clock), before[k].lastUsed);
        }
      }
    }

    /** Drops one entry of least stamp. */
    method EvictOldest() returns (ghost oldest: string)
      requires retainedBytes <= Bytes(entries) && entries != map[]
      modifies this
      ensures IsOldest(old(entries), oldest) && entries == old(entries) - {oldest} && clock == old(clock)
      ensures retainedBytes <= Bytes(entries) && retainedBytes <= old(retainedBytes)
      ensures old(Exact()) ==> Exact()
      ensures old(Refines()) ==>
                && Refines() && old(recency) != [] && recency == old(recency)[1..]
                && Total(old(recency)) == Bytes(old(entries)) && Total(recency) == Bytes(entries)
    {
      hide Bytes, Agree, Total, WithoutKey;
      ghost var some := SomeOldest(entries);
      var victim :| IsOldest(entries, victim);
      assert IsOldest(entries, victim);
      oldest := victim;
      BytesWithout(entries, victim);
      if Refines() {
        BytesAreTotal(entries, recency, clock);
        OldestIsHead(entries, recency, clock, victim);
        AgreeOnKey(entries, recency, clock, victim);
        recency := recency[1..];
        BytesAreTotal(entries - {victim}, recency, clock);
      }
      retainedBytes := SaturatingSub(retainedBytes, entries[victim].bytes);
      entries := entries - {victim};
    }

    /** Drops entries of least stamp until the limit holds. An entry that fits
        by itself and is newer than all others stays. */
    method EvictToLimit(ghost newest: string)
      requires retainedBytes <= Bytes(entries)
      modifies this
      ensures retainedBytes <= maxBytes && retainedBytes <= Bytes(entries) && clock == old(clock)
      ensures entries.Keys <= old(entries).Keys && forall k | k in entries :: entries[k] == old(entries)[k]
      ensures newest in old(entries) && old(entries)[newest].bytes <= maxBytes && newest !in entries ==>
                exists k | k in old(entries) && k != newest :: old(entries)[newest].lastUsed <= old(entries)[k].lastUsed
      ensures old(retainedBytes) <= maxBytes ==> entries == old(entries) && retainedBytes == old(retainedBytes)
      ensures OldestFirst(old(entries), entries)
      ensures old(Exact()) ==> Exact()
      ensures old(Refines()) ==> Refines()
      ensures old(Refines()) && old(Exact()) ==> recency == DropOldest(old(recency), maxBytes)
    {
      hide Bytes, Agree, Total, WithoutKey, OldestFirst;
      NothingGone(entries);
      while retainedBytes > maxBytes
        invariant retainedBytes <= Bytes(entries) && clock == old(clock)
        invariant entries.Keys <= old(entries).Keys && forall k | k in entries :: entries[k] == old(entries)[k]
        invariant newest in old(entries) && old(entries)[newest].bytes <= maxBytes && newest !in entries ==>
                    exists k | k in old(entries) && k != newest ::
                        old(entries)[newest].lastUsed <= old(entries)[k].lastUsed
        invariant old(retainedBytes) <= maxBytes ==> entries == old(entries) && retainedBytes == old(retainedBytes)
        invariant OldestFirst(old(entries), entries)
        invariant old(Exact()) ==> Exact()
        invariant old(Refines()) ==> Refines()
        invariant old(Refines()) && old(Exact()) ==>
                    DropOldest(recency, maxBytes) == DropOldest(old(recency), maxBytes)
        decreases |entries|
      {
        if entries == map[] {
          NoBytes(entries);
          assert false;
        }
        ghost var left, retained := entries, retainedBytes;
        ghost var oldest := EvictOldest();
        OneMoreGone(old(entries), left, oldest);
        if oldest == newest && left[newest].bytes <= maxBytes {
          NotAlone(left, newest, retained, maxBytes);
        }
      }
      if old(Refines()) {
        BytesAreTotal(entries, recency, clock);
      }
    }
  }

  lemma NotAlone<V>(entries: map<string, Entry<V>>, oldest: string, retained: nat, limit: nat)
    requires IsOldest(entries, oldest) && entries[oldest].bytes <= limit < retained <= Bytes(entries)
    ensures exists k | k in entries && k != oldest :: entries[oldest].lastUsed <= entries[k].lastUsed
  {
    var others := entries - {oldest};
    BytesWithout(entries, oldest);
    if others == map[] {
      NoBytes(others);
    } else {
      var k :| k in others;
      assert k in entries;
    }
  }

  /** With a saturated clock the victim is open: two entries can both be oldest,
      the one just inserted among them. */
  lemma SaturatedStampsLeaveVictimOpen<V>(value: V, bytes: nat)
    ensures var newest := Entry(value, bytes, SaturatingAdd(U64_MAX, 1));
            var entries := map["old" := Entry(value, bytes, U64_MAX), "new" := newest];
            IsOldest(entries, "old") && IsOldest(entries, "new")
  {
  }
}
