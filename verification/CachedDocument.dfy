// A cached document result and the request it is offered for (result_cache.rs):
// when the terminals on disk are one-to-one with the request's blocks.
module CachedDocument {
  import opened Sorting
  import opened DocumentHash
  import opened DocumentRequest

  /** A terminal item; payloadIsValid stands for the contract checks on it. */
  datatype TerminalItem = TerminalItem(identity: Identity, payloadIsValid: bool)

  /** What a terminal item and its source block have in common. */
  datatype Identity = Identity(
    itemId: string,
    parentBlockId: string,
    subItemOrder: nat,
    sourceIndex: nat,
    itemOrder: nat,
    kind: Kind,
    sourceText: string)

  datatype CachedDocumentJob = CachedDocumentJob(blocks: seq<TerminalItem>, preserved: seq<TerminalItem>) {
    function Terminals(): seq<TerminalItem> {
      blocks + preserved
    }
  }

  function IdentityOf(source: SourceBlock): Identity {
    Identity(source.itemId, source.parentBlockId, source.subItemOrder, source.sourceIndex, source.itemOrder,
             source.kind, source.text)
  }

  function Identities(terminals: seq<TerminalItem>): seq<Identity> {
    seq(|terminals|, i requires 0 <= i < |terminals| => terminals[i].identity)
  }

  function SourceIdentities(sources: seq<SourceBlock>): seq<Identity> {
    seq(|sources|, i requires 0 <= i < |sources| => IdentityOf(sources[i]))
  }

  predicate DistinctIds(identities: seq<Identity>) {
    forall i, j | 0 <= i < j < |identities| :: identities[i].itemId != identities[j].itemId
  }

  predicate AllPayloadsValid(terminals: seq<TerminalItem>) {
    forall i | 0 <= i < |terminals| :: terminals[i].payloadIsValid
  }

  predicate IsValid(job: CachedDocumentJob) {
    AllPayloadsValid(job.Terminals()) && DistinctIds(Identities(job.Terminals()))
  }

  function Ids(identities: seq<Identity>): set<string> {
    set i | 0 <= i < |identities| :: identities[i].itemId
  }

  lemma IdsOfAppended(identities: seq<Identity>, next: Identity)
    ensures Ids(identities + [next]) == Ids(identities) + {next.itemId}
  {
    var more := identities + [next];
    assert forall i | 0 <= i < |identities| :: more[i] == identities[i];
    assert more[|identities|] == next;
  }

  /** Valid items whose ids are neither repeated nor seen before. */
  predicate AreNew(items: seq<TerminalItem>, seen: set<string>) {
    && AllPayloadsValid(items)
    && DistinctIds(Identities(items))
    && (forall i | 0 <= i < |items| :: items[i].identity.itemId !in seen)
  }

  lemma NewNext(items: seq<TerminalItem>, n: nat, seen: set<string>)
    requires n < |items|
    ensures var id, before := items[n].identity.itemId, Ids(Identities(items[..n]));
            && Ids(Identities(items[..n + 1])) == before + {id}
            && (AreNew(items[..n + 1], seen) <==>
                AreNew(items[..n], seen) && items[n].payloadIsValid && id !in seen + before)
  {
    var front, next := items[..n], items[n];
    assert items[..n + 1] == front + [next];
    assert Identities(front + [next]) == Identities(front) + [next.identity];
    IdsOfAppended(Identities(front), next.identity);
    PayloadsConcat(front, [next]);
    DistinctConcat(Identities(front), [next.identity]);
    assert Identities([next]) == [next.identity] && [next.identity][0].itemId == next.identity.itemId;
    assert AllPayloadsValid([next]) <==> [next][0].payloadIsValid;
    assert (front + [next])[n] == next;
    assert forall i | 0 <= i < n :: (front + [next])[i] == front[i];
  }

  lemma {:induction false} NewPrefix(items: seq<TerminalItem>, n: nat, seen: set<string>)
    requires n <= |items| && AreNew(items, seen)
    ensures AreNew(items[..n], seen)
    decreases |items| - n
  {
    if n == |items| {
      assert items[..n] == items;
    } else {
      NewPrefix(items, n + 1, seen);
      NewNext(items, n, seen);
    }
  }

  /** Checks one of the two lists against the ids seen so far. */
  method ValidateItems(items: seq<TerminalItem>, seen: set<string>) returns (ok: bool, itemIds: set<string>)
    ensures ok <==> AreNew(items, seen)
    ensures ok ==> itemIds == seen + Ids(Identities(items))
  {
    itemIds := seen;
    assert items[..0] == [];
    for n := 0 to |items|
      invariant AreNew(items[..n], seen)
      invariant itemIds == seen + Ids(Identities(items[..n]))
    {
      hide AreNew, Ids;
      NewNext(items, n, seen);
      var id := items[n].identity.itemId;
      if !items[n].payloadIsValid || id in itemIds {
        if AreNew(items, seen) {
          NewPrefix(items, n + 1, seen);
        }
        return false, itemIds;
      }
      itemIds := itemIds + {id};
    }
    assert items[..|items|] == items;
    ok := true;
  }

  method Validate(job: CachedDocumentJob) returns (ok: bool)
    ensures ok <==> IsValid(job)
  {
    var itemIds: set<string>;
    ok, itemIds := ValidateItems(job.blocks, {});
    ValiditySplits(job);
    if ok {
      ok, itemIds := ValidateItems(job.preserved, itemIds);
    }
  }

  lemma ValiditySplits(job: CachedDocumentJob)
    ensures IsValid(job) <==>
            && AllPayloadsValid(job.blocks) && AllPayloadsValid(job.preserved)
            && DistinctIds(Identities(job.blocks)) && DistinctIds(Identities(job.preserved))
            && (forall i | 0 <= i < |job.preserved| :: job.preserved[i].identity.itemId !in Ids(Identities(job.blocks)))
  {
    var a, b := Identities(job.blocks), Identities(job.preserved);
    assert Identities(job.Terminals()) == a + b;
    DistinctConcat(a, b);
    PayloadsConcat(job.blocks, job.preserved);
    assert |b| == |job.preserved|;
    assert forall i | 0 <= i < |b| :: b[i] == job.preserved[i].identity;
  }

  lemma PayloadsConcat(a: seq<TerminalItem>, b: seq<TerminalItem>)
    ensures AllPayloadsValid(a + b) <==> AllPayloadsValid(a) && AllPayloadsValid(b)
  {
    assert forall i | 0 <= i < |a| :: (a + b)[i] == a[i];
    assert forall i | 0 <= i < |b| :: (a + b)[|a| + i] == b[i];
  }

  lemma DistinctConcat(a: seq<Identity>, b: seq<Identity>)
    ensures DistinctIds(a + b) <==>
            DistinctIds(a) && DistinctIds(b) && (forall i | 0 <= i < |b| :: b[i].itemId !in Ids(a))
  {
    var all := a + b;
    assert forall i | 0 <= i < |a| :: all[i] == a[i];
    assert forall i | 0 <= i < |b| :: all[|a| + i] == b[i];
    if DistinctIds(a) && DistinctIds(b) && forall i | 0 <= i < |b| :: b[i].itemId !in Ids(a) {
      forall i, j | 0 <= i < j < |all| ensures all[i].itemId != all[j].itemId {
        if i < |a| <= j {
          assert all[j] == b[j - |a|] && a[i].itemId in Ids(a);
        }
      }
    }
  }

  // ---- Against a request ----

  /** Accepted for a request: as many terminals as blocks, and each block has a
      terminal with its identity and text. */
  predicate IsAcceptedFor(job: CachedDocumentJob, sources: seq<SourceBlock>) {
    && IsValid(job)
    && |job.Terminals()| == |sources|
    && (forall i | 0 <= i < |sources| :: IdentityOf(sources[i]) in Identities(job.Terminals()))
  }

  ghost predicate Indexed(terminals: map<string, Identity>, identities: seq<Identity>) {
    && (forall i | 0 <= i < |identities| ::
          identities[i].itemId in terminals && terminals[identities[i].itemId] == identities[i])
    && |terminals| == |identities|
    && (forall id | id in terminals :: terminals[id].itemId == id && terminals[id] in identities)
  }

  lemma IndexedNext(terminals: map<string, Identity>, identities: seq<Identity>, n: nat)
    requires n < |identities| && DistinctIds(identities) && Indexed(terminals, identities[..n])
    ensures Indexed(terminals[identities[n].itemId := identities[n]], identities[..n + 1])
  {
    var next := identities[n];
    assert forall x | x in identities[..n] :: x.itemId != next.itemId;
    assert next.itemId !in terminals;
    assert identities[..n + 1] == identities[..n] + [next];
    IndexedAppended(terminals, identities[..n], next);
  }

  lemma IndexedAppended(terminals: map<string, Identity>, identities: seq<Identity>, next: Identity)
    requires Indexed(terminals, identities) && next.itemId !in terminals
    ensures Indexed(terminals[next.itemId := next], identities + [next])
  {
    var more, all := terminals[next.itemId := next], identities + [next];
    assert more.Keys == terminals.Keys + {next.itemId};
    assert |more| == |more.Keys| && |terminals| == |terminals.Keys|;
    forall i | 0 <= i < |all| ensures all[i].itemId in more && more[all[i].itemId] == all[i] {
      if i < |identities| {
        assert identities[i].itemId in terminals;
      }
    }
  }

  lemma IndexedFinds(terminals: map<string, Identity>, identities: seq<Identity>, wanted: Identity)
    requires Indexed(terminals, identities)
    ensures wanted in identities <==> wanted.itemId in terminals && terminals[wanted.itemId] == wanted
  {
  }

  method ValidateAgainst(job: CachedDocumentJob, sources: seq<SourceBlock>) returns (ok: bool)
    ensures ok <==> IsAcceptedFor(job, sources)
  {
    hide IsValid, Indexed;
    ok := Validate(job);
    if !ok {
      return;
    }
    assert DistinctIds(Identities(job.Terminals())) by { ValidIsDistinct(job); }
    ghost var all := Identities(job.Terminals());
    var terminals := map[];
    NothingIndexed();
    assert all[..0] == [];
    for n := 0 to |job.blocks|
      invariant Indexed(terminals, all[..n])
    {
      IndexedNext(terminals, all, n);
      terminals := terminals[job.blocks[n].identity.itemId := job.blocks[n].identity];
    }
    for n := 0 to |job.preserved|
      invariant Indexed(terminals, all[..|job.blocks| + n])
    {
      IndexedNext(terminals, all, |job.blocks| + n);
      terminals := terminals[job.preserved[n].identity.itemId := job.preserved[n].identity];
    }
    assert all[..|all|] == all;
    assert |terminals| == |all| by { IndexedSize(terminals, all); }
    if |terminals| != |sources| {
      return false;
    }
    for n := 0 to |sources|
      invariant forall i | 0 <= i < n :: IdentityOf(sources[i]) in all
    {
      var source := sources[n];
      IndexedFinds(terminals, all, IdentityOf(source));
      if source.itemId !in terminals {
        return false;
      }
      var terminal := terminals[source.itemId];
      IndexedKeys(terminals, all, source.itemId);
      if terminal.parentBlockId != source.parentBlockId
         || terminal.subItemOrder != source.subItemOrder
         || terminal.sourceIndex != source.sourceIndex
         || terminal.itemOrder != source.itemOrder
         || terminal.kind != source.kind
         || terminal.sourceText != source.text
      {
        return false;
      }
    }
    ok := true;
  }

  lemma NothingIndexed()
    ensures Indexed(map[], [])
  {
  }

  lemma IndexedSize(terminals: map<string, Identity>, identities: seq<Identity>)
    requires Indexed(terminals, identities)
    ensures |terminals| == |identities|
  {
  }

  lemma IndexedKeys(terminals: map<string, Identity>, identities: seq<Identity>, id: string)
    requires Indexed(terminals, identities) && id in terminals
    ensures terminals[id].itemId == id
  {
  }

  lemma ValidIsDistinct(job: CachedDocumentJob)
    requires IsValid(job)
    ensures DistinctIds(Identities(job.Terminals()))
  {
  }

  // ---- One-to-one ----

  lemma {:induction false} DistinctCount(identities: seq<Identity>)
    requires DistinctIds(identities)
    ensures |Ids(identities)| == |identities|
    ensures forall x :: multiset(identities)[x] <= 1
  {
    if identities == [] {
      assert Ids(identities) == {};
    } else {
      var last := |identities| - 1;
      var front, id := identities[..last], identities[last].itemId;
      DistinctCount(front);
      assert identities == front + [identities[last]];
      IdsOfAppended(front, identities[last]);
      assert id !in Ids(front);
      assert identities[last] !in front;
      hide Ids, DistinctIds;
      assert |Ids(front) + {id}| == |Ids(front)| + 1;
      assert multiset(identities) == multiset(front) + multiset{identities[last]};
    }
  }

  lemma {:induction false} SubsetOfSameSize<T>(a: set<T>, b: set<T>)
    requires a <= b && |a| == |b|
    ensures a == b
  {
    if a != b {
      var x :| x in b && x !in a;
      SmallerWithout(a, b, x);
    }
  }

  lemma SmallerWithout<T>(a: set<T>, b: set<T>, x: T)
    requires a <= b && x in b && x !in a
    ensures |a| < |b|
  {
    assert b == a + (b - a);
    assert |b| == |a| + |b - a|;
    assert x in b - a;
  }

  lemma SameSetSameMultiset(a: seq<Identity>, b: seq<Identity>)
    requires DistinctIds(a) && DistinctIds(b)
    requires forall x :: x in a <==> x in b
    ensures multiset(a) == multiset(b)
  {
    DistinctCount(a);
    DistinctCount(b);
    forall x: Identity ensures multiset(a)[x] == multiset(b)[x] {
      assert x in a <==> x in multiset(a);
      assert x in b <==> x in multiset(b);
    }
  }

  lemma NoExtraTerminal(job: CachedDocumentJob, sources: seq<SourceBlock>)
    requires IsAcceptedFor(job, sources) && DistinctIds(SourceIdentities(sources))
    ensures forall x :: x in Identities(job.Terminals()) <==> x in SourceIdentities(sources)
  {
    var a, b := SourceIdentities(sources), Identities(job.Terminals());
    forall x | x in a ensures x in b {
      var i :| 0 <= i < |a| && a[i] == x;
      assert IdentityOf(sources[i]) == x;
    }
    forall id | id in Ids(a) ensures id in Ids(b) {
      var i :| 0 <= i < |a| && a[i].itemId == id;
      assert a[i] in a;
    }
    DistinctCount(a);
    DistinctCount(b);
    SubsetOfSameSize(Ids(a), Ids(b));
    forall x | x in b ensures x in a {
      SameIdSameIdentity(a, b, x);
    }
  }

  lemma SameIdSameIdentity(a: seq<Identity>, b: seq<Identity>, x: Identity)
    requires DistinctIds(b) && Ids(a) == Ids(b) && x in b
    requires forall y | y in a :: y in b
    ensures x in a
  {
    var j :| 0 <= j < |b| && b[j] == x;
    assert x.itemId in Ids(b);
    var i :| 0 <= i < |a| && a[i].itemId == x.itemId;
    assert a[i] in b;
    var k :| 0 <= k < |b| && b[k] == a[i];
    assert k == j;
  }

  /** For a request with distinct ids: accepted exactly when the job is valid and
      its identities and texts are the request's, each as often. */
  lemma AcceptedExactlyWhenOneToOne(job: CachedDocumentJob, sources: seq<SourceBlock>)
    requires DistinctIds(SourceIdentities(sources))
    ensures IsAcceptedFor(job, sources) <==>
            IsValid(job) && multiset(Identities(job.Terminals())) == multiset(SourceIdentities(sources))
  {
    var a, b := SourceIdentities(sources), Identities(job.Terminals());
    if IsAcceptedFor(job, sources) {
      NoExtraTerminal(job, sources);
      SameSetSameMultiset(b, a);
    }
    if multiset(b) == multiset(a) {
      assert |multiset(a)| == |a| && |multiset(b)| == |b|;
      forall i | 0 <= i < |sources| ensures IdentityOf(sources[i]) in b {
        assert a[i] == IdentityOf(sources[i]) && a[i] in multiset(a);
      }
    }
  }

  /** An accepted job tells of each source block what the request says. */
  lemma AcceptedTellsEverySource(job: CachedDocumentJob, sources: seq<SourceBlock>, i: nat)
    requires IsAcceptedFor(job, sources) && i < |sources|
    ensures exists terminal | terminal in job.Terminals() ::
              var told, source := terminal.identity, sources[i];
              && told.itemId == source.itemId && told.parentBlockId == source.parentBlockId
              && told.subItemOrder == source.subItemOrder && told.sourceIndex == source.sourceIndex
              && told.itemOrder == source.itemOrder && told.kind == source.kind && told.sourceText == source.text
  {
    var told := Identities(job.Terminals());
    assert IdentityOf(sources[i]) in told;
    var k :| 0 <= k < |told| && told[k] == IdentityOf(sources[i]);
    assert job.Terminals()[k] in job.Terminals();
  }

  /** Without distinct request ids acceptance and a one-to-one match part: a
      match then needs the distinct ids, as the terminals have them. */
  lemma AcceptedIsOneToOneExactlyForDistinctIds(job: CachedDocumentJob, sources: seq<SourceBlock>)
    requires IsAcceptedFor(job, sources)
    ensures multiset(Identities(job.Terminals())) == multiset(SourceIdentities(sources))
            <==> DistinctIds(SourceIdentities(sources))
  {
    var a, b := SourceIdentities(sources), Identities(job.Terminals());
    if DistinctIds(a) {
      AcceptedExactlyWhenOneToOne(job, sources);
    } else if multiset(a) == multiset(b) {
      var i, j :| 0 <= i < j < |a| && a[i].itemId == a[j].itemId;
      SameMultisetDistinct(b, a);
    }
  }

  lemma SameMultisetDistinct(b: seq<Identity>, a: seq<Identity>)
    requires multiset(a) == multiset(b) && DistinctIds(b)
    ensures DistinctIds(a)
  {
    DistinctCount(b);
    forall i, j | 0 <= i < j < |a| ensures a[i].itemId != a[j].itemId {
      if a[i] == a[j] {
        TwiceInMultiset(a, i, j);
      } else {
        assert a[i] in multiset(b) && a[j] in multiset(b);
      }
    }
  }

  lemma TwiceInMultiset(a: seq<Identity>, i: nat, j: nat)
    requires i < j < |a| && a[i] == a[j]
    ensures multiset(a)[a[i]] >= 2
  {
    assert a == a[..j] + a[j..];
    assert a[i] in a[..j] && a[j] in a[j..];
    assert multiset(a[..j])[a[i]] >= 1 && multiset(a[j..])[a[i]] >= 1;
  }

  /** A job accepted for two accepted requests: the requests have the same
      blocks, whatever their hashes were. */
  lemma AcceptedForOneSnapshotOnly(job: CachedDocumentJob, a: seq<SourceBlock>, b: seq<SourceBlock>)
    requires BlocksAreAccepted(a) && BlocksAreAccepted(b)
    requires IsAcceptedFor(job, a) && IsAcceptedFor(job, b)
    ensures a == b
  {
    AcceptedListsAreDistinct(a);
    AcceptedListsAreDistinct(b);
    NoExtraTerminal(job, a);
    NoExtraTerminal(job, b);
    SameBlocks(a, b);
    SameBlocks(b, a);
    OrderedByPosition(a);
    OrderedByPosition(b);
    StrictOrderIsUnique(a, b, NotAfter);
  }

  predicate NotAfter(x: SourceBlock, y: SourceBlock) {
    !Before(y, x)
  }

  lemma OrderedByPosition(blocks: seq<SourceBlock>)
    requires BlocksAreAccepted(blocks)
    ensures Ordered(blocks, NotAfter)
    ensures forall i, j | 0 <= i < j < |blocks| :: !NotAfter(blocks[j], blocks[i])
  {
    forall i, j | 0 <= i < j < |blocks|
      ensures Before(blocks[i], blocks[j])
    {
      PositionsIncrease(blocks, i, j);
    }
  }

  lemma AcceptedListsAreDistinct(blocks: seq<SourceBlock>)
    requires BlocksAreAccepted(blocks)
    ensures DistinctIds(SourceIdentities(blocks))
  {
    IdsDiffer(blocks);
  }

  lemma SameBlocks(a: seq<SourceBlock>, b: seq<SourceBlock>)
    requires BlocksAreAccepted(a) && BlocksAreAccepted(b)
    requires forall x :: x in SourceIdentities(a) ==> x in SourceIdentities(b)
    ensures forall x | x in a :: x in b
  {
    forall x | x in a ensures x in b {
      var i :| 0 <= i < |a| && a[i] == x;
      assert SourceIdentities(a)[i] == IdentityOf(x);
      assert IdentityOf(x) in SourceIdentities(b);
      var j :| 0 <= j < |b| && SourceIdentities(b)[j] == IdentityOf(x);
      assert IdentityOf(b[j]) == IdentityOf(x);
      FromTheDom(a, i);
      FromTheDom(b, j);
      assert b[j] == x;
    }
  }

  lemma FromTheDom(blocks: seq<SourceBlock>, i: nat)
    requires BlocksAreAccepted(blocks) && i < |blocks|
    ensures blocks[i].provenance.Dom?
  {
    assert FaultAt(blocks, i).None?;
  }
}
