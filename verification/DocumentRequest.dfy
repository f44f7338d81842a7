// The block list of a document request (contracts.rs): the checks on the blocks
// and their order, and what an accepted list is.
module DocumentRequest {
  import opened Machine
  import opened Text
  import opened DocumentHash

  const MAX_BLOCKS := 2_000
  const MAX_BLOCK_BYTES := 16 * 1024
  const MAX_ID_CHARS := 256

  function Utf8Width(c: char): nat {
    if c < '\U{80}' then 1 else if c < '\U{800}' then 2 else if c < '\U{10000}' then 3 else 4
  }

  function Utf8Length(s: string): nat {
    if s == "" then 0 else Utf8Width(s[0]) + Utf8Length(s[1..])
  }

  predicate IdIsValid(id: string) {
    !IsBlank(id) && |id| <= MAX_ID_CHARS
  }

  predicate BlockIsValid(block: SourceBlock) {
    && IdIsValid(block.parentBlockId)
    && IdIsValid(block.itemId)
    && block.provenance.Dom?
    && !IsBlank(block.text)
    && Utf8Length(block.text) <= MAX_BLOCK_BYTES
    && '\r' !in block.text
    && '\0' !in block.text
    && Trim(block.text) == block.text
  }

  /** Strictly earlier by source index and item order. */
  predicate Before(a: SourceBlock, b: SourceBlock) {
    a.sourceIndex < b.sourceIndex || (a.sourceIndex == b.sourceIndex && a.itemOrder < b.itemOrder)
  }

  /** How many of the blocks have a given parent. */
  function Siblings(blocks: seq<SourceBlock>, parent: string): nat {
    if blocks == [] then 0
    else
      var last := |blocks| - 1;
      Siblings(blocks[..last], parent) + (if blocks[last].parentBlockId == parent then 1 else 0)
  }

  predicate IdIsNew(blocks: seq<SourceBlock>, i: nat)
    requires i < |blocks|
  {
    forall j | 0 <= j < i :: blocks[j].itemId != blocks[i].itemId
  }

  datatype Fault =
    | BlockCount | Block(index: nat) | SubItemOrder(index: nat) | ItemId(index: nat) | Position(index: nat)

  /** What is wrong with the block at an index, in the order of the checks. */
  function FaultAt(blocks: seq<SourceBlock>, i: nat): Option<Fault>
    requires i < |blocks|
  {
    if !BlockIsValid(blocks[i]) then Some(Block(i))
    else if blocks[i].subItemOrder != Siblings(blocks[..i], blocks[i].parentBlockId) then Some(SubItemOrder(i))
    else if !IdIsNew(blocks, i) then Some(ItemId(i))
    else if i > 0 && !Before(blocks[i - 1], blocks[i]) then Some(Position(i))
    else None
  }

  predicate NoFaultBefore(blocks: seq<SourceBlock>, end: nat)
    requires end <= |blocks|
  {
    forall i | 0 <= i < end :: FaultAt(blocks, i).None?
  }

  predicate BlocksAreAccepted(blocks: seq<SourceBlock>) {
    0 < |blocks| <= MAX_BLOCKS && NoFaultBefore(blocks, |blocks|)
  }

  function Expected(orders: map<string, nat>, parent: string): nat {
    if parent in orders then orders[parent] else 0
  }

  /** The ids and counts on record are those of the blocks before index i. */
  ghost predicate Recorded(blocks: seq<SourceBlock>, i: nat, ids: set<string>, parentOrders: map<string, nat>)
    requires i <= |blocks|
  {
    && (forall j | 0 <= j < i :: blocks[j].itemId in ids)
    && (forall id | id in ids :: exists j | 0 <= j < i :: blocks[j].itemId == id)
    && (forall parent :: Expected(parentOrders, parent) == Siblings(blocks[..i], parent))
  }

  lemma RecordedNext(blocks: seq<SourceBlock>, i: nat, ids: set<string>, parentOrders: map<string, nat>)
    requires i < |blocks| && Recorded(blocks, i, ids, parentOrders)
    ensures var parent := blocks[i].parentBlockId;
            && Expected(parentOrders, parent) == Siblings(blocks[..i], parent)
            && (blocks[i].itemId in ids <==> !IdIsNew(blocks, i))
            && Recorded(blocks, i + 1, ids + {blocks[i].itemId},
                        parentOrders[parent := Expected(parentOrders, parent) + 1])
  {
    assert blocks[..i + 1][..i] == blocks[..i];
    var parent := blocks[i].parentBlockId;
    var orders := parentOrders[parent := Expected(parentOrders, parent) + 1];
    forall other
      ensures Expected(orders, other) == Siblings(blocks[..i + 1], other)
    {
      assert Expected(parentOrders, other) == Siblings(blocks[..i], other);
    }
    var all := ids + {blocks[i].itemId};
    forall id | id in all
      ensures exists j | 0 <= j < i + 1 :: blocks[j].itemId == id
    {
      if id !in ids {
        assert blocks[i].itemId == id;
      } else {
        var j :| 0 <= j < i && blocks[j].itemId == id;
        assert blocks[j].itemId == id;
      }
    }
  }

  lemma NoFaultNext(blocks: seq<SourceBlock>, i: nat)
    requires i < |blocks| && NoFaultBefore(blocks, i) && FaultAt(blocks, i).None?
    ensures NoFaultBefore(blocks, i + 1)
  {
  }

  lemma FaultRefuses(blocks: seq<SourceBlock>, i: nat)
    requires i < |blocks| && FaultAt(blocks, i).Some?
    ensures !BlocksAreAccepted(blocks)
  {
  }

  method ValidateBlocks(blocks: seq<SourceBlock>) returns (fault: Option<Fault>)
    ensures fault.None? <==> BlocksAreAccepted(blocks)
    ensures fault == Some(BlockCount) <==> !(0 < |blocks| <= MAX_BLOCKS)
    ensures fault.Some? && !fault.value.BlockCount? ==>
              && fault.value.index < |blocks|
              && FaultAt(blocks, fault.value.index) == fault
              && NoFaultBefore(blocks, fault.value.index)
  {
    if blocks == [] || |blocks| > MAX_BLOCKS {
      return Some(BlockCount);
    }
    var ids: set<string> := {};
    var parentOrders: map<string, nat> := map[];
    var previous: Option<SourceBlock> := None;
    for i := 0 to |blocks|
      invariant Recorded(blocks, i, ids, parentOrders)
      invariant previous == if i == 0 then None else Some(blocks[i - 1])
      invariant NoFaultBefore(blocks, i)
    {
      hide BlockIsValid, Recorded, IdIsNew, Siblings, Expected, Before, NoFaultBefore;
      RecordedNext(blocks, i, ids, parentOrders);
      var block := blocks[i];
      if FaultAt(blocks, i).Some? {
        FaultRefuses(blocks, i);
      } else {
        NoFaultNext(blocks, i);
      }
      if !BlockIsValid(block) {
        return Some(Block(i));
      }
      var expectedOrder := Expected(parentOrders, block.parentBlockId);
      if block.subItemOrder != expectedOrder {
        return Some(SubItemOrder(i));
      }
      parentOrders := parentOrders[block.parentBlockId := expectedOrder + 1];
      if block.itemId in ids {
        return Some(ItemId(i));
      }
      ids := ids + {block.itemId};
      if previous.Some? && !Before(previous.value, block) {
        return Some(Position(i));
      }
      previous := Some(block);
    }
    return None;
  }

  // ---- What an accepted list is ----

  lemma {:induction false} PositionsIncrease(blocks: seq<SourceBlock>, i: nat, j: nat)
    requires BlocksAreAccepted(blocks) && i < j < |blocks|
    ensures Before(blocks[i], blocks[j])
  {
    hide BlockIsValid;
    assert FaultAt(blocks, j).None?;
    if i < j - 1 {
      PositionsIncrease(blocks, i, j - 1);
    }
  }

  lemma IdsDiffer(blocks: seq<SourceBlock>)
    requires BlocksAreAccepted(blocks)
    ensures forall i, j | 0 <= i < j < |blocks| :: blocks[i].itemId != blocks[j].itemId
  {
    hide BlockIsValid;
    forall i, j | 0 <= i < j < |blocks|
      ensures blocks[i].itemId != blocks[j].itemId
    {
      assert FaultAt(blocks, j).None?;
    }
  }

  lemma {:induction false} SiblingsGrow(blocks: seq<SourceBlock>, parent: string, i: nat, j: nat)
    requires i <= j <= |blocks|
    ensures Siblings(blocks[..i], parent) <= Siblings(blocks[..j], parent)
    decreases j - i
  {
    if i < j {
      SiblingsGrow(blocks, parent, i, j - 1);
      assert blocks[..j][..j - 1] == blocks[..j - 1];
    }
  }

  /** The k-th block of a parent exists, and bears the number k. */
  lemma {:induction false} SiblingWithOrder(blocks: seq<SourceBlock>, parent: string, end: nat, k: nat) returns (i: nat)
    requires BlocksAreAccepted(blocks) && end <= |blocks| && k < Siblings(blocks[..end], parent)
    ensures i < end && blocks[i].parentBlockId == parent && blocks[i].subItemOrder == k
    decreases end
  {
    hide BlockIsValid;
    assert end > 0;
    assert blocks[..end][..end - 1] == blocks[..end - 1];
    if k < Siblings(blocks[..end - 1], parent) {
      i := SiblingWithOrder(blocks, parent, end - 1, k);
    } else {
      assert FaultAt(blocks, end - 1).None?;
      i := end - 1;
    }
  }

  predicate NumbersASibling(blocks: seq<SourceBlock>, parent: string, k: nat) {
    exists i | 0 <= i < |blocks| :: blocks[i].parentBlockId == parent && blocks[i].subItemOrder == k
  }

  /** Within a parent the blocks are numbered 0, 1, 2, ... in document order,
      without a gap or a repeat. */
  lemma SiblingsAreNumberedInOrder(blocks: seq<SourceBlock>, parent: string)
    requires BlocksAreAccepted(blocks)
    ensures forall i, j | 0 <= i < j < |blocks| && blocks[i].parentBlockId == blocks[j].parentBlockId ::
              blocks[i].subItemOrder < blocks[j].subItemOrder
    ensures forall k: nat :: NumbersASibling(blocks, parent, k) <==> k < Siblings(blocks, parent)
  {
    hide BlockIsValid;
    forall i, j | 0 <= i < j < |blocks| && blocks[i].parentBlockId == blocks[j].parentBlockId
      ensures blocks[i].subItemOrder < blocks[j].subItemOrder
    {
      NextSiblingIsGreater(blocks, i, j);
    }
    assert blocks[..|blocks|] == blocks;
    forall k: nat
      ensures NumbersASibling(blocks, parent, k) <==> k < Siblings(blocks, parent)
    {
      if k < Siblings(blocks, parent) {
        var i := SiblingWithOrder(blocks, parent, |blocks|, k);
      }
      if NumbersASibling(blocks, parent, k) {
        var i :| 0 <= i < |blocks| && blocks[i].parentBlockId == parent && blocks[i].subItemOrder == k;
        CountedByTheEnd(blocks, i);
        SiblingsGrow(blocks, parent, i + 1, |blocks|);
      }
    }
  }

  lemma CountedByTheEnd(blocks: seq<SourceBlock>, i: nat)
    requires BlocksAreAccepted(blocks) && i < |blocks|
    ensures Siblings(blocks[..i + 1], blocks[i].parentBlockId) == blocks[i].subItemOrder + 1
  {
    hide BlockIsValid;
    assert FaultAt(blocks, i).None?;
    assert blocks[..i + 1][..i] == blocks[..i];
  }

  lemma NextSiblingIsGreater(blocks: seq<SourceBlock>, i: nat, j: nat)
    requires BlocksAreAccepted(blocks) && i < j < |blocks| && blocks[i].parentBlockId == blocks[j].parentBlockId
    ensures blocks[i].subItemOrder < blocks[j].subItemOrder
  {
    hide BlockIsValid;
    CountedByTheEnd(blocks, i);
    SiblingsGrow(blocks, blocks[i].parentBlockId, i + 1, j);
    assert FaultAt(blocks, j).None?;
  }

  // ---- Accepted lists and the document hash ----

  function Collider(itemId: string, parentBlockId: string): SourceBlock {
    SourceBlock(itemId, parentBlockId, 0, 0, 0, Prose, Dom, "x")
  }

  lemma OneBlockIsAccepted(block: SourceBlock)
    requires BlockIsValid(block) && block.subItemOrder == 0
    ensures BlocksAreAccepted([block])
  {
    assert [block][..0] == [];
  }

  lemma UnblankEnds(s: string)
    requires s != "" && !IsWhitespace(s[0]) && !IsWhitespace(s[|s| - 1])
    ensures Trim(s) == s && !IsBlank(s)
  {
  }

  /** The checks let separators into ids, so two accepted snapshots can feed the
      hasher the same bytes. */
  lemma AcceptedSnapshotsCanCollide()
    ensures var a, b := [Collider("p" + [US] + "q", "r")], [Collider("p", "q" + [US] + "r")];
            BlocksAreAccepted(a) && BlocksAreAccepted(b) && a != b && Canonical(a) == Canonical(b)
  {
    var x, y := Collider("p" + [US] + "q", "r"), Collider("p", "q" + [US] + "r");
    UnblankEnds(x.itemId);
    UnblankEnds(x.parentBlockId);
    UnblankEnds(y.itemId);
    UnblankEnds(y.parentBlockId);
    UnblankEnds("x");
    OneBlockIsAccepted(x);
    OneBlockIsAccepted(y);
    SeparatorInItemIdCollides(x, "p", "q");
    assert x.(itemId := "p", parentBlockId := "q" + [US] + "r") == y;
  }
}
