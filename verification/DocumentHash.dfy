// What canonical_document_sha256 (contracts.rs) feeds to its hasher: one record
// per block, fields apart by unit separators, records ended by record separators.
module DocumentHash {
  import opened Machine
  import opened Text

  const US: char := '\U{1F}'
  const RS: char := '\U{1E}'

  datatype Kind = Prose | Heading | Dialogue | Caption | Thought | Sfx

  datatype Provenance = Dom | Ocr

  datatype SourceBlock = SourceBlock(
    itemId: string,
    parentBlockId: string,
    subItemOrder: nat,
    sourceIndex: nat,
    itemOrder: nat,
    kind: Kind,
    provenance: Provenance,
    text: string)

  function KindName(kind: Kind): string {
    match kind
    case Prose => "prose"
    case Heading => "heading"
    case Dialogue => "dialogue"
    case Caption => "caption"
    case Thought => "thought"
    case Sfx => "sfx"
  }

  function ProvenanceName(provenance: Provenance): string {
    match provenance
    case Dom => "dom"
    case Ocr => "ocr"
  }

  /** The fields of a block but for its text, each followed by a separator. */
  function Fields(block: SourceBlock): seq<string> {
    [block.itemId, block.parentBlockId, Decimal(block.subItemOrder), Decimal(block.sourceIndex),
     Decimal(block.itemOrder), KindName(block.kind), ProvenanceName(block.provenance)]
  }

  function Separated(fields: seq<string>): string {
    if fields == [] then "" else fields[0] + [US] + Separated(fields[1..])
  }

  function Record(block: SourceBlock): string {
    Separated(Fields(block)) + block.text + [RS]
  }

  function Canonical(blocks: seq<SourceBlock>): string {
    if blocks == [] then "" else Record(blocks[0]) + Canonical(blocks[1..])
  }

  lemma {:induction false} CanonicalConcat(a: seq<SourceBlock>, b: seq<SourceBlock>)
    ensures Canonical(a + b) == Canonical(a) + Canonical(b)
  {
    if a == [] {
      assert a + b == b;
    } else {
      assert (a + b)[1..] == a[1..] + b;
      CanonicalConcat(a[1..], b);
      assert Record(a[0]) + (Canonical(a[1..]) + Canonical(b)) == (Record(a[0]) + Canonical(a[1..])) + Canonical(b);
    }
  }

  method FeedHasher(blocks: seq<SourceBlock>) returns (fed: string)
    ensures fed == Canonical(blocks)
  {
    fed := "";
    for i := 0 to |blocks|
      invariant fed == Canonical(blocks[..i])
    {
      var block := blocks[i];
      var record := block.itemId + [US] + block.parentBlockId + [US] + Decimal(block.subItemOrder) + [US]
        + Decimal(block.sourceIndex) + [US] + Decimal(block.itemOrder) + [US] + KindName(block.kind) + [US]
        + ProvenanceName(block.provenance) + [US] + block.text + [RS];
      SpelledOut(Fields(block));
      assert record == Record(block) by { hide Separated, Decimal, KindName, ProvenanceName; }
      assert blocks[..i + 1] == blocks[..i] + [block];
      CanonicalConcat(blocks[..i], [block]);
      assert Canonical([block]) == Record(block);
      fed := fed + record;
    }
    assert blocks[..|blocks|] == blocks;
  }

  lemma SeparatedCons(head: string, tail: seq<string>)
    ensures Separated([head] + tail) == head + [US] + Separated(tail)
  {
    assert ([head] + tail)[1..] == tail;
  }

  lemma SpelledOut(f: seq<string>)
    requires |f| == 7
    ensures Separated(f)
            == f[0] + [US] + f[1] + [US] + f[2] + [US] + f[3] + [US] + f[4] + [US] + f[5] + [US] + f[6] + [US]
  {
    hide Separated;
    SeparatedPrefix(f, 1);
    SeparatedOne(f[0]);
    assert f[..1] == [f[0]];
    SeparatedPrefix(f, 2);
    SeparatedPrefix(f, 3);
    SeparatedPrefix(f, 4);
    SeparatedPrefix(f, 5);
    SeparatedPrefix(f, 6);
    SeparatedPrefix(f, 7);
    assert f[..7] == f;
  }

  lemma SeparatedOne(field: string)
    ensures Separated([field]) == field + [US]
  {
  }

  lemma {:induction false} SeparatedPrefix(fields: seq<string>, n: nat)
    requires 0 < n <= |fields|
    ensures Separated(fields[..n]) == Separated(fields[..n - 1]) + fields[n - 1] + [US]
    decreases n
  {
    assert fields[..n][1..] == fields[1..][..n - 1];
    if n > 1 {
      SeparatedPrefix(fields[1..], n - 1);
      assert fields[..n - 1][1..] == fields[1..][..n - 2];
    }
  }

  // ---- Decoding ----

  /** Cuts a string at its first separator. */
  function Cut(s: string, separator: char): (r: Option<(string, string)>)
    ensures r.Some? ==> |r.value.1| < |s|
  {
    if s == "" then None
    else if s[0] == separator then Some(("", s[1..]))
    else
      match Cut(s[1..], separator)
      case None => None
      case Some((front, rest)) => Some(([s[0]] + front, rest))
  }

  /** Cuts off n fields. */
  function CutFields(s: string, n: nat): (r: Option<(seq<string>, string)>)
    ensures r.Some? ==> |r.value.0| == n && |r.value.1| <= |s|
    decreases n
  {
    if n == 0 then Some(([], s))
    else
      match Cut(s, US)
      case None => None
      case Some((field, rest)) =>
        match CutFields(rest, n - 1)
        case None => None
        case Some((fields, end)) => Some(([field] + fields, end))
  }

  function ReadNumber(s: string): Option<nat> {
    if s != "" && forall i | 0 <= i < |s| :: '0' <= s[i] <= '9' then Some(DecimalValue(s)) else None
  }

  function ReadKind(s: string): Option<Kind> {
    if s == "prose" then Some(Prose)
    else if s == "heading" then Some(Heading)
    else if s == "dialogue" then Some(Dialogue)
    else if s == "caption" then Some(Caption)
    else if s == "thought" then Some(Thought)
    else if s == "sfx" then Some(Sfx)
    else None
  }

  function ReadProvenance(s: string): Option<Provenance> {
    if s == "dom" then Some(Dom) else if s == "ocr" then Some(Ocr) else None
  }

  function ReadBlock(fields: seq<string>, text: string): Option<SourceBlock>
    requires |fields| == 7
  {
    var sub, source, item := ReadNumber(fields[2]), ReadNumber(fields[3]), ReadNumber(fields[4]);
    var kind, provenance := ReadKind(fields[5]), ReadProvenance(fields[6]);
    if sub.Some? && source.Some? && item.Some? && kind.Some? && provenance.Some? then
      Some(SourceBlock(fields[0], fields[1], sub.value, source.value, item.value, kind.value, provenance.value, text))
    else None
  }

  function Decode(s: string): Option<seq<SourceBlock>>
    decreases |s|
  {
    if s == "" then Some([])
    else
      match CutFields(s, 7)
      case None => None
      case Some((fields, rest)) =>
        match Cut(rest, RS)
        case None => None
        case Some((text, more)) =>
          match (ReadBlock(fields, text), Decode(more))
          case (Some(block), Some(blocks)) => Some([block] + blocks)
          case _ => None
  }

  /** Ids without unit separator, text without record separator. Record
      separators in ids and unit separators in text do no harm. */
  predicate Clean(block: SourceBlock) {
    US !in block.itemId && US !in block.parentBlockId && RS !in block.text
  }

  lemma {:induction false} CutAtSeparator(front: string, separator: char, rest: string)
    requires separator !in front
    ensures Cut(front + [separator] + rest, separator) == Some((front, rest))
  {
    var s := front + [separator] + rest;
    if front == "" {
      assert s[1..] == rest;
    } else {
      assert s[0] == front[0] && front[0] in front;
      var more := front[1..] + [separator] + rest;
      assert s[1..] == more;
      CutAtSeparator(front[1..], separator, rest);
      assert Cut(s, separator) == Some(([s[0]] + front[1..], rest));
      assert [s[0]] + front[1..] == front;
    }
  }

  lemma {:induction false} CutSeparatedFields(fields: seq<string>, rest: string)
    requires forall f | f in fields :: US !in f
    ensures CutFields(Separated(fields) + rest, |fields|) == Some((fields, rest))
  {
    hide Cut;
    if fields == [] {
      assert "" + rest == rest;
    } else {
      var more := Separated(fields[1..]) + rest;
      assert Separated(fields) + rest == fields[0] + [US] + more;
      assert fields[0] in fields;
      CutAtSeparator(fields[0], US, more);
      CutSeparatedFields(fields[1..], rest);
      assert [fields[0]] + fields[1..] == fields;
    }
  }

  lemma ReadOwnNumber(n: nat)
    ensures ReadNumber(Decimal(n)) == Some(n)
  {
    var numeral := Decimal(n);
    forall i | 0 <= i < |numeral| ensures '0' <= numeral[i] <= '9' {
      assert numeral[i] in numeral;
    }
    DecimalRoundTrip(n);
  }

  lemma ReadOwnFields(block: SourceBlock)
    ensures ReadBlock(Fields(block), block.text) == Some(block)
  {
    hide Decimal, ReadNumber;
    ReadOwnNumber(block.subItemOrder);
    ReadOwnNumber(block.sourceIndex);
    ReadOwnNumber(block.itemOrder);
  }

  lemma FieldsAreClean(block: SourceBlock)
    requires Clean(block)
    ensures forall f | f in Fields(block) :: US !in f
  {
    assert US !in Decimal(block.subItemOrder) && US !in Decimal(block.sourceIndex) && US !in Decimal(block.itemOrder);
    assert US !in KindName(block.kind) && US !in ProvenanceName(block.provenance);
  }

  lemma DecodeRecord(block: SourceBlock, more: string)
    requires Clean(block)
    ensures Record(block) + more != ""
    ensures CutFields(Record(block) + more, 7) == Some((Fields(block), block.text + [RS] + more))
  {
    hide CutFields, Separated;
    FieldsAreClean(block);
    CutSeparatedFields(Fields(block), block.text + [RS] + more);
    assert Record(block) + more == Separated(Fields(block)) + (block.text + [RS] + more);
  }

  lemma {:induction false} DecodeCanonical(blocks: seq<SourceBlock>)
    requires forall b | b in blocks :: Clean(b)
    ensures Decode(Canonical(blocks)) == Some(blocks)
  {
    hide CutFields, Cut, ReadBlock, Fields, Separated, Record, Clean;
    if blocks != [] {
      var block, more := blocks[0], Canonical(blocks[1..]);
      assert block in blocks;
      DecodeCanonical(blocks[1..]);
      DecodeRecord(block, more);
      TextIsClean(block);
      CutAtSeparator(block.text, RS, more);
      ReadOwnFields(block);
      assert [block] + blocks[1..] == blocks;
    }
  }

  lemma TextIsClean(block: SourceBlock)
    requires Clean(block)
    ensures RS !in block.text
  {
  }

  /** Distinct clean snapshots feed distinct bytes. */
  lemma CanonicalInjective(a: seq<SourceBlock>, b: seq<SourceBlock>)
    requires forall x | x in a :: Clean(x)
    requires forall x | x in b :: Clean(x)
    requires Canonical(a) == Canonical(b)
    ensures a == b
  {
    DecodeCanonical(a);
    DecodeCanonical(b);
  }

  // ---- The conditions are needed ----

  /** A unit separator in an item id can be moved into the parent id. */
  lemma SeparatorInItemIdCollides(block: SourceBlock, x: string, y: string)
    requires block.itemId == x + [US] + y
    ensures var other := block.(itemId := x, parentBlockId := y + [US] + block.parentBlockId);
            other != block && Canonical([other]) == Canonical([block])
  {
    var other := block.(itemId := x, parentBlockId := y + [US] + block.parentBlockId);
    var tail := Fields(block)[2..];
    assert Fields(block) == [block.itemId] + ([block.parentBlockId] + tail);
    assert Fields(other) == [other.itemId] + ([other.parentBlockId] + tail);
    SeparatedCons(block.itemId, [block.parentBlockId] + tail);
    SeparatedCons(block.parentBlockId, tail);
    SeparatedCons(other.itemId, [other.parentBlockId] + tail);
    SeparatedCons(other.parentBlockId, tail);
    assert Separated(Fields(block)) == x + [US] + y + [US] + block.parentBlockId + [US] + Separated(tail);
    assert Separated(Fields(other)) == x + [US] + y + [US] + block.parentBlockId + [US] + Separated(tail);
    assert |other.itemId| < |block.itemId|;
  }

  /** And one in a parent id can be moved into the item id. */
  lemma SeparatorInParentIdCollides(block: SourceBlock, x: string, y: string)
    requires block.parentBlockId == x + [US] + y
    ensures var other := block.(itemId := block.itemId + [US] + x, parentBlockId := y);
            other != block && Canonical([other]) == Canonical([block])
  {
    var other := block.(itemId := block.itemId + [US] + x, parentBlockId := y);
    SeparatorInItemIdCollides(other, block.itemId, x);
  }

  /** A record separator in a text can end the record and begin another. */
  lemma SeparatorInTextCollides(block: SourceBlock, text: string, next: SourceBlock)
    ensures var merged := block.(text := text + [RS] + Separated(Fields(next)) + next.text);
            Canonical([merged]) == Canonical([block.(text := text), next])
  {
    var first := block.(text := text);
    var merged := block.(text := text + [RS] + Separated(Fields(next)) + next.text);
    assert Fields(first) == Fields(merged) == Fields(block);
    assert [first, next][1..] == [next];
    assert Canonical([next]) == Record(next) + "";
    assert Canonical([first, next]) == Record(first) + Canonical([next]);
    assert Canonical([merged]) == Record(merged) + "";
    assert Record(merged) == Separated(Fields(block)) + text + [RS] + Separated(Fields(next)) + next.text + [RS];
  }
}
