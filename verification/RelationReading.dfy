/** Which relation configs and tag entries there are, and what each of them says: every text, well-formed or not. */
module RelationReading {
  import opened Strings
  import opened StringLaws
  import opened Schemas
  import opened RelationConfig

  // ----- tag entries -----

  /** A key in small letters: with the text behind the first `=`, unless that comes first, or else with "true". */
  ghost predicate EntryReads(item: string, key: string, value: string) {
    if '=' in item && item[0] != '='
    then exists a, b :: IsCutAt(item, a, "=", b) && key == Lower(TrimSpace(a)) && value == TrimSpace(b)
    else key == Lower(TrimSpace(item)) && value == "true"
  }

  /** A text cut at the first occurrence of a separator. */
  predicate IsCutAt(s: string, a: string, sep: string, b: string) { s == a + sep + b && Index(a, sep) < 0 }

  lemma TagEntryExactly(item: string, key: string, value: string)
    ensures TagEntry(item) == (key, value) <==> EntryReads(item, key, value)
  {
    hide Index, Lower, TrimSpace;
    var i := Index(item, "=");
    CharFound(item, '=');
    if i > 0 {
      CutExists(item, "=");
      forall a, b | IsCutAt(item, a, "=", b) ensures a == item[..i] && b == item[i + 1..] { CutIsFirst(item, a, "=", b); }
    }
  }

  lemma CutExists(s: string, sep: string)
    requires sep != "" && Index(s, sep) >= 0
    ensures var i := Index(s, sep); IsCutAt(s, s[..i], sep, s[i + |sep|..])
  {
    hide Index;
    BeforeFirst(s, sep);
    assert Occurs(s, sep, Index(s, sep));
  }

  lemma CutIsFirst(s: string, a: string, sep: string, b: string)
    requires sep != "" && sep[0] !in sep[1..] && IsCutAt(s, a, sep, b)
    ensures Index(s, sep) == |a| && a == s[..|a|] && b == s[|a| + |sep|..]
  {
    hide Index;
    IndexAfter(a, sep, b);
  }

  // ----- direct configs -----

  /** Exactly one arrow. */
  predicate OneArrow(s: string, a: string, b: string) { IsCutAt(s, a, "->", b) && Index(b, "->") < 0 }

  lemma ArrowSign()
    ensures "->" != "" && "->"[0] !in "->"[1..]
  {
  }

  lemma ArrowSplits(s: string, a: string, b: string)
    requires OneArrow(s, a, b)
    ensures Split(s, "->") == [a, b]
  {
    hide Index;
    ArrowSign();
    CutIsFirst(s, a, "->", b);
    assert Split(b, "->") == [b];
    assert [a] + [b] == [a, b];
  }

  lemma TwoPartsAreArrow(s: string)
    requires |Split(s, "->")| == 2
    ensures var parts := Split(s, "->"); OneArrow(s, parts[0], parts[1])
  {
    hide Index, Split;
    var parts := Split(s, "->");
    SplitExactly(s, "->");
    assert parts == [parts[0], parts[1]];
    assert parts[1..] == [parts[1]];
    JoinOne(parts[1], "->");
    JoinCons(parts[0], [parts[1]], "->");
    assert [parts[0]] + [parts[1]] == parts;
  }

  lemma {:induction false} TrimmedParts(parts: seq<string>)
    ensures var r := TrimParts(parts, false); |r| == |parts| && forall i :: 0 <= i < |r| ==> r[i] == TrimSpace(parts[i])
  {
    hide TrimSpace;
    if parts != [] { TrimmedParts(parts[1..]); }
  }

  /** A direct config is a relation exactly if it holds one arrow; its ends are the fields, trimmed. */
  lemma DirectParsesExactly(kind: RelationKind, others: string, srcSchema: string, current: Option<Relation>, known: set<string>)
    requires kind == HasOne || kind == HasMany || kind == ReferencesOne
    ensures var r := RelationFrom(kind, others, srcSchema, current, known);
            && r != Panicked
            && (r.Parsed? <==> exists a, b :: OneArrow(others, a, b))
            && (r.Parsed? ==> forall a, b :: OneArrow(others, a, b) ==>
                  r.relation.srcField == TrimSpace(a) && r.relation.dstField == TrimSpace(b))
  {
    hide TrimSpace, OneArrow, Merged, Split;
    TrimmedParts(Split(others, "->"));
    if |Split(others, "->")| == 2 { TwoPartsAreArrow(others); }
    forall a, b | OneArrow(others, a, b) ensures Split(others, "->") == [a, b] { ArrowSplits(others, a, b); }
  }

  // ----- bridge configs -----

  /** What stands at both sides of the arrow of an item, if it has one and no more. */
  ghost predicate SideReads(item: string, field: string, column: string) {
    exists a, b :: OneArrow(item, a, b) && field == TrimSpace(a) && column == TrimSpace(b)
  }

  ghost predicate IsSide(item: string) { exists a, b :: OneArrow(item, a, b) }

  lemma SideExactly(item: string)
    ensures var split := SplitTrimmed(item, "->", false);
            && (|split| == 2 <==> IsSide(item))
            && (|split| == 2 ==> SideReads(item, split[0], split[1]))
  {
    hide TrimSpace, OneArrow, Split;
    TrimmedParts(Split(item, "->"));
    if |Split(item, "->")| == 2 { TwoPartsAreArrow(item); }
    if a, b :| OneArrow(item, a, b) { ArrowSplits(item, a, b); }
  }

  /** The last item behind the first that has one arrow. */
  ghost predicate IsTarget(items: seq<string>, j: nat) {
    0 < j < |items| && IsSide(items[j]) && forall l :: j < l < |items| ==> !IsSide(items[l])
  }

  /**
   The first item of a bridge gives the source side, the last readable one behind it the target side; a side that no
   item gives stays as it was.
   */
  lemma {:induction false} SidesExactly(rel: Relation, items: seq<string>, j: nat)
    ensures var r := BridgeSides(rel, items);
            && (if items != [] && IsSide(items[0]) then SideReads(items[0], r.srcField, r.brgSrcField)
                else r.srcField == rel.srcField && r.brgSrcField == rel.brgSrcField)
            && (IsTarget(items, j) ==> SideReads(items[j], r.dstField, r.brgDstField))
            && ((forall l :: 1 <= l < |items| ==> !IsSide(items[l])) ==>
                  r.dstField == rel.dstField && r.brgDstField == rel.brgDstField)
            && r == rel.(srcField := r.srcField, brgSrcField := r.brgSrcField, dstField := r.dstField, brgDstField := r.brgDstField)
    decreases |items|
  {
    hide IsSide, SideReads, SplitTrimmed;
    if items != [] {
      var most, last := items[..|items| - 1], items[|items| - 1];
      SideExactly(last);
      SidesExactly(rel, most, j);
      assert forall l :: 0 <= l < |most| ==> most[l] == items[l];
    }
  }

  /** A name, then parentheses: the first that opens and the last that closes. */
  predicate InParens(s: string, name: string, inner: string, rest: string) {
    s == name + "(" + inner + ")" + rest && '(' !in name && ')' !in rest
  }

  lemma {:induction false} LastIndexIs(s: string, c: char, j: nat)
    requires j < |s| && s[j] == c && c !in s[j + 1..]
    ensures LastIndex(s, c) == j
  {
    if j < |s| - 1 {
      var most := s[..|s| - 1];
      assert s[j + 1..] == most[j + 1..] + [s[|s| - 1]];
      LastIndexIs(most, c, j);
    }
  }

  lemma ParensAt(s: string, name: string, inner: string, rest: string)
    requires InParens(s, name, inner, rest)
    ensures Index(s, "(") == |name| && LastIndex(s, ')') == |name| + 1 + |inner|
    ensures name == s[..|name|] && inner == s[|name| + 1..|name| + 1 + |inner|]
  {
    var close := |name| + 1 + |inner|;
    assert s[..|name|] == name && s[|name|] == '(' && s[close] == ')' && s[close + 1..] == rest;
    hide Index, LastIndex;
    CharIs(s, '(', |name|);
    LastIndexIs(s, ')', close);
  }

  lemma ParensExist(s: string)
    requires Index(s, "(") >= 0 && LastIndex(s, ')') >= Index(s, "(") + 1
    ensures var fi, li := Index(s, "("), LastIndex(s, ')'); InParens(s, s[..fi], s[fi + 1..li], s[li + 1..])
  {
    hide Index, LastIndex;
    CharFound(s, '(');
  }

  /**
   A bridge config panics exactly if there is no parenthesis that opens, or none behind the first of them that closes.
   Otherwise the bridge is the text in front, native exactly if it is not known, and the items stand between them.
   */
  lemma BridgeParsesExactly(others: string, srcSchema: string, current: Option<Relation>, known: set<string>)
    ensures var r := RelationFrom(ReferencesMany, others, srcSchema, current, known);
            && (r == Panicked <==> !exists name, inner, rest :: InParens(others, name, inner, rest))
            && forall name, inner, rest :: InParens(others, name, inner, rest) ==>
                 var sides := BridgeSides(Merged(Fresh(ReferencesMany, srcSchema), current).(brgSchema := name),
                                          SplitTrimmed(inner, ",", false));
                 r == Parsed(sides.(brgIsNative := name !in known))
  {
    hide Index, LastIndex, Merged, SplitTrimmed, BridgeSides, InParens;
    var fi, li := Index(others, "("), LastIndex(others, ')');
    if fi >= 0 && li >= fi + 1 { ParensExist(others); }
    forall name, inner, rest | InParens(others, name, inner, rest)
      ensures fi == |name| && li == |name| + 1 + |inner| && name == others[..fi] && inner == others[fi + 1..li]
    {
      ParensAt(others, name, inner, rest);
    }
  }
}
