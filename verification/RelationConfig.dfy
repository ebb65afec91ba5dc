/** schema.go: struct tags and the relation configs inside them. */
module RelationConfig {
  import opened Strings
  import opened Schemas

  /** The constants of schema.go:46-51. */
  const KINDS: seq<(string, RelationKind)> := [
    ("HAS_ONE", HasOne), ("HAS_MANY", HasMany), ("REFERENCES_ONE", ReferencesOne), ("REFERENCES_MANY", ReferencesMany)
  ]

  function KindIn(kinds: seq<(string, RelationKind)>, word: string): RelationKind {
    if kinds == [] then NoKind else if kinds[0].0 == word then kinds[0].1 else KindIn(kinds[1..], word)
  }

  /** The kind a word stands for; any other word is no kind. */
  function KindOf(word: string): RelationKind { KindIn(KINDS, word) }

  // ----- tools.go:511-525 -----

  function TrimParts(parts: seq<string>, removeEmpty: bool): seq<string> {
    if parts == [] then [] else
      var item := TrimSpace(parts[0]);
      (if removeEmpty && item == "" then [] else [item]) + TrimParts(parts[1..], removeEmpty)
  }

  function SplitTrimmed(s: string, sep: string, removeEmpty: bool): seq<string>
    requires sep != ""
  {
    TrimParts(Split(s, sep), removeEmpty)
  }

  method SplitAndTrimSpace(s: string, sep: string, removeEmpty: bool) returns (result: seq<string>)
    requires sep != ""
    ensures result == SplitTrimmed(s, sep, removeEmpty)
  {
    var parts := Split(s, sep);
    result := [];
    assert parts[0..] == parts;
    for i := 0 to |parts|
      invariant result + TrimParts(parts[i..], removeEmpty) == TrimParts(parts, removeEmpty)
    {
      assert parts[i..][0] == parts[i] && parts[i..][1..] == parts[i + 1..];
      var item := TrimSpace(parts[i]);
      if (removeEmpty && item != "") || !removeEmpty {
        Regroup(result, [item], TrimParts(parts[i + 1..], removeEmpty));
        result := result + [item];
      }
    }
  }

  // ----- tags -----

  /** KEY=VALUE, or KEY alone for KEY=true. */
  function TagEntry(item: string): (string, string) {
    var i := Index(item, "=");
    if i > 0 then (Lower(TrimSpace(item[..i])), TrimSpace(item[i + 1..]))
    else (Lower(TrimSpace(item)), "true")
  }

  /** Later entries win. */
  function TagMap(items: seq<string>): map<string, string> {
    if items == [] then map[] else
      var (k, v) := TagEntry(items[|items| - 1]);
      TagMap(items[..|items| - 1])[k := v]
  }

  lemma TagMapStep(items: seq<string>, i: nat)
    requires i < |items|
    ensures var (k, v) := TagEntry(items[i]); TagMap(items[..i + 1]) == TagMap(items[..i])[k := v]
  {
    assert items[..i + 1][..i] == items[..i];
  }

  /** schema.go:543-566. */
  method ParseTag(tagName: string) returns (result: map<string, string>)
    ensures result == TagMap(SplitTrimmed(TrimSpace(tagName), ";", true))
  {
    var items := SplitAndTrimSpace(TrimSpace(tagName), ";", true);
    result := map[];
    for i := 0 to |items|
      invariant result == TagMap(items[..i])
    {
      TagMapStep(items, i);
      var key, value := KeyAndValue(items[i]);
      result := result[key := value];
    }
    assert items[..|items|] == items;
  }

  method KeyAndValue(item: string) returns (key: string, value: string)
    ensures (key, value) == TagEntry(item)
  {
    key, value := item, "true";
    var i := Index(item, "=");
    if i > 0 {
      key, value := item[..i], TrimSpace(item[i + 1..]);
    }
    key := Lower(TrimSpace(key));
  }

  // ----- relations -----

  datatype Parsed = NoRelation | Parsed(relation: Relation) | Panicked

  function Or(s: string, t: string): string { if s == "" then t else s }

  /** mergo.Merge: the empty parts of r are taken from the relation the field already has. */
  function Merged(r: Relation, current: Option<Relation>): Relation {
    match current
    case None => r
    case Some(c) => Relation(if r.kind == NoKind then c.kind else r.kind, Or(r.field, c.field), Or(r.srcSchema, c.srcSchema),
                             Or(r.srcField, c.srcField), Or(r.dstSchema, c.dstSchema), Or(r.dstField, c.dstField),
                             Or(r.brgSchema, c.brgSchema), Or(r.brgSrcField, c.brgSrcField),
                             Or(r.brgDstField, c.brgDstField), r.brgIsNative || c.brgIsNative)
  }

  function Fresh(kind: RelationKind, srcSchema: string): Relation {
    Relation(kind, "", srcSchema, "", "", "", "", "", "", false)
  }

  /** One `x->y` of a bridge config; the first is the source side, every later one the target side. */
  function BridgeSide(rel: Relation, i: nat, item: string): Relation {
    var split := SplitTrimmed(item, "->", false);
    if |split| != 2 then rel
    else if i == 0 then rel.(srcField := split[0], brgSrcField := split[1])
    else rel.(dstField := split[0], brgDstField := split[1])
  }

  function BridgeSides(rel: Relation, items: seq<string>): (r: Relation)
    ensures r.brgSchema == rel.brgSchema
  {
    if items == [] then rel else BridgeSide(BridgeSides(rel, items[..|items| - 1]), |items| - 1, items[|items| - 1])
  }

  /** strings.LastIndex for one character. */
  function LastIndex(s: string, c: char): (r: int)
    ensures -1 <= r < |s|
    ensures r >= 0 ==> s[r] == c && c !in s[r + 1..]
    ensures r < 0 ==> c !in s
  {
    if s == "" then -1
    else if s[|s| - 1] == c then |s| - 1
    else
      var r := LastIndex(s[..|s| - 1], c);
      assert s == s[..|s| - 1] + [s[|s| - 1]];
      assert r >= 0 ==> s[r + 1..] == s[..|s| - 1][r + 1..] + [s[|s| - 1]];
      r
  }

  /** What parseRelation returns. `known` are the schema names of the snapshot. */
  function RelationOf(config: string, srcSchema: string, current: Option<Relation>, known: set<string>): Parsed {
    var c := TrimSpace(config);
    var i := Index(c, ",");
    if i <= 0 then NoRelation
    else
      RelationFrom(KindOf(Upper(c[..i])), TrimSpace(c[i + 1..]), srcSchema, current, known)
  }

  /** The part behind the kind. */
  function RelationFrom(kind: RelationKind, others: string, srcSchema: string, current: Option<Relation>,
                        known: set<string>): Parsed {
    var rel := Merged(Fresh(kind, srcSchema), current);
    match kind
    case NoKind => NoRelation
    case ReferencesMany =>
      var fi := Index(others, "(");
      var li := LastIndex(others, ')');
      if fi < 0 || li < fi + 1 then Panicked
      else
        var sides := BridgeSides(rel.(brgSchema := others[..fi]), SplitTrimmed(others[fi + 1..li], ",", false));
        Parsed(sides.(brgIsNative := others[..fi] !in known))
    case _ =>
      var split := SplitTrimmed(others, "->", false);
      if |split| != 2 then NoRelation else Parsed(rel.(srcField := split[0], dstField := split[1]))
  }

  /** schema.go:476-540. */
  method ParseRelation(config: string, srcSchema: string, current: Option<Relation>, known: set<string>)
    returns (r: Parsed)
    ensures r == RelationOf(config, srcSchema, current, known)
  {
    var c := TrimSpace(config);
    var i := Index(c, ",");
    if i <= 0 {
      return NoRelation;
    }
    var kind := KindOf(Upper(c[..i]));
    var others := TrimSpace(c[i + 1..]);
    hide Index, TrimSpace, KindOf, Upper;
    r := ParseOthers(kind, others, srcSchema, current, known);
  }

  /** schema.go:491-539. */
  method ParseOthers(kind: RelationKind, others: string, srcSchema: string, current: Option<Relation>, known: set<string>)
    returns (r: Parsed)
    ensures r == RelationFrom(kind, others, srcSchema, current, known)
  {
    hide Index, LastIndex, Merged, SplitTrimmed, BridgeSides;
    var rel := Merged(Fresh(kind, srcSchema), current);
    if kind == NoKind {
      return NoRelation;
    }
    if kind == ReferencesMany {
      var fi := Index(others, "(");
      var li := LastIndex(others, ')');
      if fi < 0 || li < fi + 1 {
        return Panicked;
      }
      var items := SplitAndTrimSpace(others[fi + 1..li], ",", false);
      rel := SetSides(rel.(brgSchema := others[..fi]), items);
      return Parsed(rel.(brgIsNative := rel.brgSchema !in known));
    }
    var split := SplitAndTrimSpace(others, "->", false);
    if |split| != 2 {
      return NoRelation;
    }
    r := Parsed(rel.(srcField := split[0], dstField := split[1]));
  }

  /** schema.go:516-529. */
  method SetSides(start: Relation, items: seq<string>) returns (rel: Relation)
    ensures rel == BridgeSides(start, items)
  {
    rel := start;
    for k := 0 to |items|
      invariant rel == BridgeSides(start, items[..k])
    {
      assert items[..k + 1][..k] == items[..k];
      var split := SplitAndTrimSpace(items[k], "->", false);
      if |split| == 2 {
        if k == 0 {
          rel := rel.(srcField := split[0], brgSrcField := split[1]);
        } else {
          rel := rel.(dstField := split[0], brgDstField := split[1]);
        }
      }
    }
    assert items[..|items|] == items;
  }

  // ----- parsing again -----

  /** The bridge a config names: for REFERENCES_MANY with its parentheses, the text before them. */
  function BridgeOf(config: string): Option<string> {
    var c := TrimSpace(config);
    var i := Index(c, ",");
    if i <= 0 || KindOf(Upper(c[..i])) != ReferencesMany then None
    else
      var others := TrimSpace(c[i + 1..]);
      var fi := Index(others, "(");
      if fi < 0 || LastIndex(others, ')') < fi + 1 then None else Some(others[..fi])
  }

  /** What the first item sets on the source side, whatever the relation was. */
  function SourceSide(items: seq<string>): Option<(string, string)> {
    if items == [] then None
    else
      var split := SplitTrimmed(items[0], "->", false);
      if |split| == 2 then Some((split[0], split[1])) else None
  }

  /** What the last readable item after the first sets on the target side. */
  function TargetSide(items: seq<string>): Option<(string, string)> {
    if |items| <= 1 then None
    else
      var split := SplitTrimmed(items[|items| - 1], "->", false);
      if |split| == 2 then Some((split[0], split[1])) else TargetSide(items[..|items| - 1])
  }

  function WithSides(rel: Relation, src: Option<(string, string)>, dst: Option<(string, string)>): Relation {
    var r := if src.Some? then rel.(srcField := src.value.0, brgSrcField := src.value.1) else rel;
    if dst.Some? then r.(dstField := dst.value.0, brgDstField := dst.value.1) else r
  }

  /** The sides a config sets do not depend on the relation they are set on. */
  lemma {:induction false} BridgeSidesOverride(rel: Relation, items: seq<string>)
    ensures BridgeSides(rel, items) == WithSides(rel, SourceSide(items), TargetSide(items))
  {
    if |items| > 1 {
      BridgeSidesOverride(rel, items[..|items| - 1]);
      assert items[..|items| - 1][0] == items[0];
    } else if |items| == 1 {
      assert items[..0] == [];
    }
  }

  /** The relation a config gives, apart from whether its bridge is known. */
  function Stable(config: string, srcSchema: string, current: Option<Relation>): Parsed {
    match RelationOf(config, srcSchema, current, {})
    case Parsed(rel) => Parsed(rel.(brgIsNative := false))
    case other => other
  }

  /** The schema names of the snapshot decide only whether the bridge is native. */
  lemma KnownDecidesNativeOnly(config: string, srcSchema: string, current: Option<Relation>, known: set<string>)
    ensures var r := RelationOf(config, srcSchema, current, known);
            var t := Stable(config, srcSchema, current);
            && r.Parsed? == t.Parsed? && (r.Panicked? == t.Panicked?)
            && (r.Parsed? ==> r.relation.(brgIsNative := false) == t.relation)
            && (r.Parsed? && BridgeOf(config).Some? ==>
                  r.relation.brgSchema == BridgeOf(config).value
                  && (r.relation.brgIsNative <==> BridgeOf(config).value !in known))
            && (r.Parsed? && BridgeOf(config).None? ==>
                  r.relation.brgIsNative == (current.Some? && current.value.brgIsNative)
                  && r.relation.brgSchema == (if current.Some? then current.value.brgSchema else ""))
            && (BridgeOf(config).Some? ==> r.Parsed?)
  {
  }

  /** Parsing a config again over its own result changes nothing but that. */
  lemma ReparseIsStable(config: string, srcSchema: string, current: Option<Relation>, known: set<string>)
    requires RelationOf(config, srcSchema, current, known).Parsed?
    ensures var rel := RelationOf(config, srcSchema, current, known).relation;
            Stable(config, srcSchema, Some(rel)) == Stable(config, srcSchema, current)
  {
    var c := TrimSpace(config);
    var i := Index(c, ",");
    ReparseFrom(KindOf(Upper(c[..i])), TrimSpace(c[i + 1..]), srcSchema, current, known);
  }

  /** A relation that keeps what another says, but for what a config sets; a direct config sets nothing of the bridge. */
  predicate KeepsOthers(rel: Relation, srcSchema: string, current: Relation) {
    && rel.field == current.field && rel.dstSchema == current.dstSchema
    && rel.srcSchema == (if srcSchema == "" then current.srcSchema else srcSchema)
    && (rel.kind != ReferencesMany ==>
          && rel.brgSchema == current.brgSchema && rel.brgIsNative == current.brgIsNative
          && rel.brgSrcField == current.brgSrcField && rel.brgDstField == current.brgDstField)
  }

  /** What the config does not say comes from the relation there was. */
  lemma OthersAreKept(config: string, srcSchema: string, current: Relation, known: set<string>)
    requires RelationOf(config, srcSchema, Some(current), known).Parsed?
    ensures KeepsOthers(RelationOf(config, srcSchema, Some(current), known).relation, srcSchema, current)
  {
    hide TrimSpace, Index, KindOf, Upper, RelationFrom, KeepsOthers;
    var c := TrimSpace(config);
    var i := Index(c, ",");
    OthersFrom(KindOf(Upper(c[..i])), TrimSpace(c[i + 1..]), srcSchema, current, known);
  }

  lemma OthersFrom(kind: RelationKind, others: string, srcSchema: string, current: Relation, known: set<string>)
    requires RelationFrom(kind, others, srcSchema, Some(current), known).Parsed?
    ensures KeepsOthers(RelationFrom(kind, others, srcSchema, Some(current), known).relation, srcSchema, current)
  {
    hide Index, LastIndex, SplitTrimmed, BridgeSides;
    if kind == ReferencesMany {
      var fi := Index(others, "(");
      var items := SplitTrimmed(others[fi + 1..LastIndex(others, ')')], ",", false);
      BridgeSidesOverride(Merged(Fresh(kind, srcSchema), Some(current)).(brgSchema := others[..fi]), items);
    }
  }

  lemma ReparseFrom(kind: RelationKind, others: string, srcSchema: string, current: Option<Relation>, known: set<string>)
    requires RelationFrom(kind, others, srcSchema, current, known).Parsed?
    ensures var rel := RelationFrom(kind, others, srcSchema, current, known).relation;
            var again := RelationFrom(kind, others, srcSchema, Some(rel), {});
            again.Parsed? && again.relation.(brgIsNative := false)
                             == RelationFrom(kind, others, srcSchema, current, {}).relation.(brgIsNative := false)
  {
    hide Index, LastIndex, SplitTrimmed, BridgeSides;
    if kind == ReferencesMany {
      var fi := Index(others, "(");
      var li := LastIndex(others, ')');
      var items := SplitTrimmed(others[fi + 1..li], ",", false);
      var rel := RelationFrom(kind, others, srcSchema, current, known).relation;
      BridgeSidesOverride(Merged(Fresh(kind, srcSchema), current).(brgSchema := others[..fi]), items);
      BridgeSidesOverride(Merged(Fresh(kind, srcSchema), Some(rel)).(brgSchema := others[..fi]), items);
    }
  }
}
