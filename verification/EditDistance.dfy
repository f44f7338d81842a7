// The OCR duplicate test of pipeline_adapter.rs: a two-row Levenshtein
// computation with two early exits, proved to answer exactly the question
// "can one text be rewritten into the other with at most `limit` edits?".
module EditDistance {

  function Min(a: nat, b: nat): nat {
    if a <= b then a else b
  }

  /** Levenshtein distance of the prefixes a[..i] and b[..j]. */
  function Distance(a: string, b: string, i: nat, j: nat): nat
    requires i <= |a| && j <= |b|
    decreases i + j
  {
    if i == 0 then j
    else if j == 0 then i
    else
      Min(Min(Distance(a, b, i - 1, j - 1) + Mismatch(a[i - 1], b[j - 1]),
              Distance(a, b, i, j - 1) + 1),
          Distance(a, b, i - 1, j) + 1)
  }

  function Mismatch(c: char, d: char): nat {
    if c == d then 0 else 1
  }

  function Levenshtein(a: string, b: string): nat {
    Distance(a, b, |a|, |b|)
  }

  // An independent reading of the distance: rewriting by single-character edits.

  datatype Edit = Keep | Replace | Insert | Delete

  /** `edits`, read left to right, rewrites `a` into `b`. */
  ghost predicate Rewrites(edits: seq<Edit>, a: string, b: string)
    decreases |edits|
  {
    if edits == [] then a == "" && b == ""
    else
      var rest := edits[..|edits| - 1];
      match edits[|edits| - 1]
      case Keep => a != "" && b != "" && a[|a| - 1] == b[|b| - 1] && Rewrites(rest, a[..|a| - 1], b[..|b| - 1])
      case Replace => a != "" && b != "" && Rewrites(rest, a[..|a| - 1], b[..|b| - 1])
      case Insert => b != "" && Rewrites(rest, a, b[..|b| - 1])
      case Delete => a != "" && Rewrites(rest, a[..|a| - 1], b)
  }

  /** Every edit but `Keep` costs one. */
  ghost function Cost(edits: seq<Edit>): nat {
    if edits == [] then 0
    else Cost(edits[..|edits| - 1]) + if edits[|edits| - 1].Keep? then 0 else 1
  }

  lemma DistanceFirstColumn(a: string, b: string, i: nat)
    requires i <= |a|
    ensures Distance(a, b, i, 0) == i
  {
  }

  lemma FirstRow(a: string, b: string)
    ensures forall j | 0 <= j <= |b| :: Distance(a, b, 0, j) == j
  {
  }

  lemma DistanceStep(a: string, b: string, i: nat, j: nat)
    requires 0 < i <= |a| && 0 < j <= |b|
    ensures Distance(a, b, i, j) ==
            Min(Min(Distance(a, b, i - 1, j - 1) + Mismatch(a[i - 1], b[j - 1]),
                    Distance(a, b, i, j - 1) + 1),
                Distance(a, b, i - 1, j) + 1)
  {
  }

  lemma DistanceAtTheEdge(a: string, b: string, i: nat, j: nat)
    requires i <= |a| && j <= |b| && (i == 0 || j == 0)
    ensures Distance(a, b, i, j) == i + j
  {
  }

  /** The distance of two prefixes does not look beyond them. */
  lemma {:induction false} DistanceOfPrefixes(a: string, b: string, n: nat, m: nat, i: nat, j: nat)
    requires i <= n <= |a| && j <= m <= |b|
    ensures Distance(a[..n], b[..m], i, j) == Distance(a, b, i, j)
    decreases i + j
  {
    hide *;
    if i == 0 || j == 0 {
      DistanceAtTheEdge(a, b, i, j);
      DistanceAtTheEdge(a[..n], b[..m], i, j);
    } else {
      DistanceOfPrefixes(a, b, n, m, i - 1, j - 1);
      DistanceOfPrefixes(a, b, n, m, i, j - 1);
      DistanceOfPrefixes(a, b, n, m, i - 1, j);
      DistanceStep(a, b, i, j);
      DistanceStep(a[..n], b[..m], i, j);
    }
  }

  function Front(s: string): string
    requires s != ""
  {
    s[..|s| - 1]
  }

  lemma WholeString(s: string)
    requires s != ""
    ensures s[..|s|] == s && s[..|s| - 1] == Front(s)
  {
  }

  lemma LevenshteinOfPrefixes(a: string, b: string, n: nat, m: nat)
    requires n <= |a| && m <= |b|
    ensures Levenshtein(a[..n], b[..m]) == Distance(a, b, n, m)
  {
    hide Distance;
    DistanceOfPrefixes(a, b, n, m, n, m);
  }

  lemma LevenshteinOfFronts(a: string, b: string)
    requires a != "" && b != ""
    ensures Levenshtein(a, b) == Distance(a, b, |a|, |b|)
    ensures Levenshtein(Front(a), Front(b)) == Distance(a, b, |a| - 1, |b| - 1)
    ensures Levenshtein(a, Front(b)) == Distance(a, b, |a|, |b| - 1)
    ensures Levenshtein(Front(a), b) == Distance(a, b, |a| - 1, |b|)
  {
    WholeString(a);
    WholeString(b);
    LevenshteinOfPrefixes(a, b, |a|, |b|);
    hide *;
    LevenshteinOfPrefixes(a, b, |a| - 1, |b| - 1);
    LevenshteinOfPrefixes(a, b, |a|, |b| - 1);
    LevenshteinOfPrefixes(a, b, |a| - 1, |b|);
  }

  /** Levenshtein distance in terms of the strings without their last character. */
  lemma LevenshteinByLast(a: string, b: string)
    ensures a == "" ==> Levenshtein(a, b) == |b|
    ensures b == "" ==> Levenshtein(a, b) == |a|
    ensures a != "" && b != "" ==>
              Levenshtein(a, b) ==
              Min(Min(Levenshtein(Front(a), Front(b)) + Mismatch(a[|a| - 1], b[|b| - 1]),
                      Levenshtein(a, Front(b)) + 1),
                  Levenshtein(Front(a), b) + 1)
  {
    if a != "" && b != "" {
      DistanceStep(a, b, |a|, |b|);
      hide *;
      LevenshteinOfFronts(a, b);
    }
  }

  lemma {:induction false} NoCheaperRewrite(edits: seq<Edit>, a: string, b: string)
    requires Rewrites(edits, a, b)
    ensures Levenshtein(a, b) <= Cost(edits)
    decreases |edits|
  {
    LevenshteinByLast(a, b);
    if edits != [] {
      hide Levenshtein;
      var rest := edits[..|edits| - 1];
      match edits[|edits| - 1]
      case Keep => NoCheaperRewrite(rest, Front(a), Front(b));
      case Replace => NoCheaperRewrite(rest, Front(a), Front(b));
      case Insert =>
        NoCheaperRewrite(rest, a, Front(b));
        LevenshteinByLast(a, Front(b));
      case Delete =>
        NoCheaperRewrite(rest, Front(a), b);
        LevenshteinByLast(Front(a), b);
    }
  }

  lemma {:induction false} CheapestRewrite(a: string, b: string) returns (edits: seq<Edit>)
    ensures Rewrites(edits, a, b) && Cost(edits) == Levenshtein(a, b)
    decreases |a| + |b|
  {
    hide Levenshtein;
    LevenshteinByLast(a, b);
    var rest, last;
    if a == "" && b == "" {
      return [];
    } else if a == "" || (b != "" && Levenshtein(a, b) == Levenshtein(a, Front(b)) + 1) {
      LevenshteinByLast(a, Front(b));
      rest := CheapestRewrite(a, Front(b));
      last := Insert;
    } else if b == "" || Levenshtein(a, b) == Levenshtein(Front(a), b) + 1 {
      LevenshteinByLast(Front(a), b);
      rest := CheapestRewrite(Front(a), b);
      last := Delete;
    } else {
      rest := CheapestRewrite(Front(a), Front(b));
      last := if a[|a| - 1] == b[|b| - 1] then Keep else Replace;
    }
    edits := rest + [last];
    assert edits[..|edits| - 1] == rest;
  }

  ghost predicate RewritableWithin(a: string, b: string, limit: nat) {
    exists edits :: Rewrites(edits, a, b) && Cost(edits) <= limit
  }

  // Why the two early exits are sound.

  lemma {:induction false} LengthDifferenceBound(a: string, b: string, i: nat, j: nat)
    requires i <= |a| && j <= |b|
    ensures i - j <= Distance(a, b, i, j) && j - i <= Distance(a, b, i, j)
    decreases i + j
  {
    if i > 0 && j > 0 {
      LengthDifferenceBound(a, b, i - 1, j - 1);
      LengthDifferenceBound(a, b, i, j - 1);
      LengthDifferenceBound(a, b, i - 1, j);
    }
  }

  ghost predicate RowExceeds(a: string, b: string, i: nat, limit: nat)
    requires i <= |a|
  {
    forall j | 0 <= j <= |b| :: Distance(a, b, i, j) > limit
  }

  lemma {:induction false} NextCellExceeds(a: string, b: string, i: nat, j: nat, limit: nat)
    requires i < |a| && j <= |b| && RowExceeds(a, b, i, limit)
    ensures Distance(a, b, i + 1, j) > limit
    decreases j
  {
    assert Distance(a, b, i, j) > limit;
    if j > 0 {
      NextCellExceeds(a, b, i, j - 1, limit);
      assert Distance(a, b, i, j - 1) > limit;
    }
  }

  /** Once a whole row is above the limit the final cell is too. */
  lemma {:induction false} ExceedingRowIsFinal(a: string, b: string, i: nat, limit: nat)
    requires i <= |a| && RowExceeds(a, b, i, limit)
    ensures Levenshtein(a, b) > limit
    decreases |a| - i
  {
    if i < |a| {
      forall j {:trigger Distance(a, b, i + 1, j)} | 0 <= j <= |b|
        ensures Distance(a, b, i + 1, j) > limit
      {
        NextCellExceeds(a, b, i, j, limit);
      }
      ExceedingRowIsFinal(a, b, i + 1, limit);
    }
  }

  method RowMinimum(row: array<nat>) returns (least: nat)
    requires row.Length > 0
    ensures forall j | 0 <= j < row.Length :: least <= row[j]
    ensures exists j | 0 <= j < row.Length :: least == row[j]
  {
    least := row[0];
    for j := 1 to row.Length
      invariant forall k | 0 <= k < j :: least <= row[k]
      invariant exists k | 0 <= k < j :: least == row[k]
    {
      if row[j] < least {
        least := row[j];
      }
    }
  }

  method NextRow(left: string, right: string, i: nat, previous: array<nat>) returns (current: array<nat>)
    requires i < |left|
    requires previous.Length == |right| + 1
    requires forall j | 0 <= j <= |right| :: previous[j] == Distance(left, right, i, j)
    ensures current.Length == |right| + 1
    ensures forall j | 0 <= j <= |right| :: current[j] == Distance(left, right, i + 1, j)
  {
    hide Distance;
    current := new nat[|right| + 1](_ => i + 1);
    DistanceFirstColumn(left, right, i + 1);
    for j := 0 to |right|
      invariant previous.Length == |right| + 1
      invariant forall k | 0 <= k <= |right| :: previous[k] == Distance(left, right, i, k)
      invariant forall k | 0 <= k <= j :: current[k] == Distance(left, right, i + 1, k)
    {
      DistanceStep(left, right, i + 1, j + 1);
      current[j + 1] :=
        Min(Min(previous[j] + Mismatch(left[i], right[j]), current[j] + 1), previous[j + 1] + 1);
    }
  }

  method AsciiEditDistanceAtMost(left: string, right: string, limit: nat) returns (within: bool)
    ensures within <==> Levenshtein(left, right) <= limit
  {
    hide Distance;
    FirstRow(left, right);
    LengthDifferenceBound(left, right, |left|, |right|);
    var difference := if |left| >= |right| then |left| - |right| else |right| - |left|;
    if difference > limit {
      return false;
    }
    var previous := new nat[|right| + 1](j => j);
    for i := 0 to |left|
      invariant previous.Length == |right| + 1
      invariant forall j | 0 <= j <= |right| :: previous[j] == Distance(left, right, i, j)
    {
      var current := NextRow(left, right, i, previous);
      var least := RowMinimum(current);
      if least > limit {
        forall j {:trigger Distance(left, right, i + 1, j)} | 0 <= j <= |right|
          ensures Distance(left, right, i + 1, j) > limit
        {
          assert current[j] == Distance(left, right, i + 1, j);
        }
        ExceedingRowIsFinal(left, right, i + 1, limit);
        return false;
      }
      previous := current;
    }
    within := previous[|right|] <= limit;
  }

  // Comparison of two recognized texts.

  predicate IsAsciiAlphanumeric(c: char) {
    'a' <= c <= 'z' || 'A' <= c <= 'Z' || '0' <= c <= '9'
  }

  function AsciiLower(c: char): char {
    if 'A' <= c <= 'Z' then ((c as int) + 32) as char else c
  }

  /** The ASCII letters and digits of a text, lower-cased. */
  function Compact(text: string): string {
    if text == "" then ""
    else (if IsAsciiAlphanumeric(text[0]) then [AsciiLower(text[0])] else "") + Compact(text[1..])
  }

  /** Compacting goes character by character. */
  lemma {:induction false} CompactConcat(a: string, b: string)
    ensures Compact(a + b) == Compact(a) + Compact(b)
  {
    hide *;
    if a == "" {
      assert a + b == b;
      CompactOfNothing();
      assert "" + Compact(b) == Compact(b);
    } else {
      CompactStep(a);
      CompactStep(a + b);
      CompactConcat(a[1..], b);
      assert (a + b)[0] == a[0] && (a + b)[1..] == a[1..] + b;
      var head := if IsAsciiAlphanumeric(a[0]) then [AsciiLower(a[0])] else "";
      Associative(head, Compact(a[1..]), Compact(b));
    }
  }

  lemma Associative(a: string, b: string, c: string)
    ensures a + (b + c) == (a + b) + c
  {
  }

  lemma CompactOfNothing()
    ensures Compact("") == ""
  {
  }

  lemma CompactStep(s: string)
    requires s != ""
    ensures Compact(s) == (if IsAsciiAlphanumeric(s[0]) then [AsciiLower(s[0])] else "") + Compact(s[1..])
  {
  }

  lemma CompactOfOne(c: char)
    ensures ('a' <= c <= 'z' || '0' <= c <= '9') ==> Compact([c]) == [c]
    ensures 'A' <= c <= 'Z' ==> Compact([c]) == [('a' as int + (c as int - 'A' as int)) as char]
    ensures !('a' <= c <= 'z' || 'A' <= c <= 'Z' || '0' <= c <= '9') ==> Compact([c]) == ""
  {
    assert [c][1..] == "";
  }

  predicate Contains(text: string, part: string) {
    exists i | 0 <= i <= |text| - |part| :: part <= text[i..]
  }

  function EditAllowance(shorter: nat): nat {
    if shorter / 5 < 1 then 1 else if shorter / 5 > 3 then 3 else shorter / 5
  }

  /** One edit below ten characters, two below fifteen, three from there on. */
  lemma AllowanceSteps(shorter: nat)
    ensures EditAllowance(shorter) == if shorter < 10 then 1 else if shorter < 15 then 2 else 3
  {
  }

  ghost predicate SameRecognizedText(left: string, right: string) {
    var l, r := Compact(left), Compact(right);
    && Min(|l|, |r|) >= 4
    && (Contains(l, r) || Contains(r, l)
        || RewritableWithin(l, r, EditAllowance(Min(|l|, |r|))))
  }

  method OcrTextsAreEquivalent(left: string, right: string) returns (equivalent: bool)
    ensures equivalent <==> SameRecognizedText(left, right)
  {
    var l, r := Compact(left), Compact(right);
    var shorter := Min(|l|, |r|);
    if shorter < 4 {
      return false;
    }
    equivalent := Contains(l, r) || Contains(r, l);
    if !equivalent {
      equivalent := AsciiEditDistanceAtMost(l, r, EditAllowance(shorter));
      WithinLimitMeansRewritable(l, r, EditAllowance(shorter));
    }
  }

  lemma WithinLimitMeansRewritable(a: string, b: string, limit: nat)
    ensures Levenshtein(a, b) <= limit <==> RewritableWithin(a, b, limit)
  {
    var best := CheapestRewrite(a, b);
    forall edits | Rewrites(edits, a, b)
      ensures Levenshtein(a, b) <= Cost(edits)
    {
      NoCheaperRewrite(edits, a, b);
    }
  }

  lemma {:induction false} DistanceSymmetric(a: string, b: string, i: nat, j: nat)
    requires i <= |a| && j <= |b|
    ensures Distance(a, b, i, j) == Distance(b, a, j, i)
    decreases i + j
  {
    if i > 0 && j > 0 {
      DistanceSymmetric(a, b, i - 1, j - 1);
      DistanceSymmetric(a, b, i, j - 1);
      DistanceSymmetric(a, b, i - 1, j);
    }
  }

  lemma SameRecognizedTextSymmetric(left: string, right: string)
    ensures SameRecognizedText(left, right) <==> SameRecognizedText(right, left)
  {
    var l, r := Compact(left), Compact(right);
    var limit := EditAllowance(Min(|l|, |r|));
    DistanceSymmetric(l, r, |l|, |r|);
    WithinLimitMeansRewritable(l, r, limit);
    WithinLimitMeansRewritable(r, l, limit);
  }
}
