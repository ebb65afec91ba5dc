/** A relation written down in the grammar of schema.go:501-512, inside a tag, is parsed back as it was. */
module RelationRoundTrip {
  import opened Strings
  import opened Schemas
  import opened RelationConfig

  /** A name free of separators and of surrounding white space. */
  predicate PlainName(s: string) {
    s != "" && Trimmed(s) && ',' !in s && '(' !in s && ')' !in s && '>' !in s && ';' !in s
  }

  lemma PadHolds(p: string, c: char)
    requires Pad(p) && !IsSpace(c)
    ensures c !in p
  {
  }

  predicate AllPads(p: seq<string>, n: nat) { |p| == n && forall i :: 0 <= i < n ==> Pad(p[i]) }

  // ----- one arrow -----

  lemma TrimTwo(first: string, second: string)
    ensures TrimParts([first, second], false) == [TrimSpace(first), TrimSpace(second)]
  {
    assert [first, second][1..] == [second] && [second][1..] == [];
    assert TrimParts([second], false) == [TrimSpace(second)];
  }

  /** a->b with white space around both names. */
  function Arrow(p: string, a: string, q: string, r: string, b: string, t: string): string {
    p + a + q + "->" + (r + b + t)
  }

  lemma SplitArrow(p: string, a: string, q: string, r: string, b: string, t: string)
    requires PlainName(a) && PlainName(b) && Pad(p) && Pad(q) && Pad(r) && Pad(t)
    ensures SplitTrimmed(Arrow(p, a, q, r, b, t), "->", false) == [a, b]
  {
    PadHolds(p, '>');
    PadHolds(q, '>');
    PadHolds(r, '>');
    PadHolds(t, '>');
    var left, right := p + a + q, r + b + t;
    assert "->"[1..] == ">";
    SplitFirst(left, "->", right, '>');
    SplitNone(right, "->", '>');
    TrimPadded(p, a, q);
    TrimPadded(r, b, t);
    TrimTwo(left, right);
  }

  // ----- HAS_ONE, HAS_MANY, REFERENCES_ONE -----

  /** The word for a kind, in any case of its letters. */
  predicate IsWordFor(word: string, kind: RelationKind) {
    word != "" && Trimmed(word) && ',' !in word && ';' !in word && KindOf(Upper(word)) == kind
  }

  predicate Capitals(w: string) { forall i :: 0 <= i < |w| ==> 'A' <= w[i] <= 'Z' || w[i] == '_' }

  lemma {:induction false} CapitalsFacts(w: string)
    requires Capitals(w)
    ensures Upper(w) == w && Trimmed(w) && ',' !in w && ';' !in w
  {
    if w != "" { CapitalsFacts(w[1..]); }
  }

  lemma ConstantsAreCapitals()
    ensures Capitals("HAS_ONE") && Capitals("HAS_MANY") && Capitals("REF_ONE") && Capitals("REF_MANY")
    ensures Capitals("REFERENCES_ONE") && Capitals("REFERENCES_MANY")
  {
  }

  lemma {:induction false} KindAt(kinds: seq<(string, RelationKind)>, i: nat)
    requires i < |kinds| && forall j :: 0 <= j < i ==> kinds[j].0 != kinds[i].0
    ensures KindIn(kinds, kinds[i].0) == kinds[i].1
  {
    if i > 0 { KindAt(kinds[1..], i - 1); }
  }

  lemma {:induction false} KindNowhere(kinds: seq<(string, RelationKind)>, word: string)
    requires forall j :: 0 <= j < |kinds| ==> kinds[j].0 != word
    ensures KindIn(kinds, word) == NoKind
  {
    if kinds != [] { KindNowhere(kinds[1..], word); }
  }

  lemma ConstantsAreKinds()
    ensures KindOf("HAS_ONE") == HasOne && KindOf("HAS_MANY") == HasMany
    ensures KindOf("REFERENCES_ONE") == ReferencesOne && KindOf("REFERENCES_MANY") == ReferencesMany
  {
    KindAt(KINDS, 0);
    KindAt(KINDS, 1);
    KindAt(KINDS, 2);
    KindAt(KINDS, 3);
  }

  /** The shorter words of the comments at schema.go:503, 511 and 512. */
  lemma CommentWordsAreNoKinds()
    ensures KindOf("REF_ONE") == NoKind && KindOf("REF_MANY") == NoKind
  {
    KindNowhere(KINDS, "REF_ONE");
    KindNowhere(KINDS, "REF_MANY");
  }

  lemma ConstantIsWord(word: string, kind: RelationKind)
    requires Capitals(word) && word != "" && KindOf(word) == kind
    ensures IsWordFor(word, kind)
  {
    CapitalsFacts(word);
  }

  /** Everything after the kind and its comma, trimmed. */
  lemma ConfigParts(p: string, kind: string, q: string, others: string, r: string)
    requires Pad(p) && Pad(q) && Pad(r) && others != "" && Trimmed(others)
    requires kind != "" && Trimmed(kind) && ',' !in kind
    ensures var c := TrimSpace(p + (kind + "," + (q + others)) + r);
            var i := Index(c, ",");
            i == |kind| > 0 && c[..i] == kind && TrimSpace(c[i + 1..]) == others
  {
    var rest := q + others;
    var c := kind + "," + rest;
    assert c[0] == kind[0] && c[|c| - 1] == others[|others| - 1];
    TrimPadded(p, c, r);
    AbsentStart(kind, ",", ',');
    IndexAfter(kind, ",", rest);
    assert rest + "" == rest;
    TrimPadded(q, others, "");
  }

  /** A config with a known word is parsed by the part behind it. */
  lemma ConfigParses(p: string, word: string, kind: RelationKind, q: string, others: string, r: string,
                     srcSchema: string, current: Option<Relation>, known: set<string>)
    requires Pad(p) && Pad(q) && Pad(r) && others != "" && Trimmed(others)
    requires word != "" && Trimmed(word) && ',' !in word && KindOf(Upper(word)) == kind
    ensures RelationOf(p + (word + "," + (q + others)) + r, srcSchema, current, known)
            == RelationFrom(kind, others, srcSchema, current, known)
  {
    ConfigParts(p, word, q, others, r);
    hide Index, TrimSpace, KindOf, Upper, RelationFrom, Pad, Trimmed;
  }

  function RenderDirect(word: string, src: string, dst: string, p: seq<string>): string
    requires |p| == 5
  {
    p[0] + (word + "," + (p[1] + Arrow("", src, p[2], p[3], dst, ""))) + p[4]
  }

  /** The relation a direct config describes, for the field it stands on. */
  function Direct(kind: RelationKind, srcSchema: string, src: string, dst: string, current: Option<Relation>): Relation {
    Merged(Fresh(kind, srcSchema), current).(srcField := src, dstField := dst)
  }

  /** kind,src->dst with white space anywhere but between the kind and its comma. */
  lemma DirectRoundTrip(word: string, kind: RelationKind, src: string, dst: string, p: seq<string>,
                        srcSchema: string, current: Option<Relation>, known: set<string>)
    requires IsWordFor(word, kind) && kind != NoKind && kind != ReferencesMany
    requires PlainName(src) && PlainName(dst)
    requires AllPads(p, 5)
    ensures RelationOf(RenderDirect(word, src, dst, p), srcSchema, current, known)
            == Parsed(Direct(kind, srcSchema, src, dst, current))
  {
    var others := Arrow("", src, p[2], p[3], dst, "");
    ArrowTrimmed(src, p[2], p[3], dst);
    SplitArrow("", src, p[2], p[3], dst, "");
    hide Arrow, PlainName, Pad, Trimmed, KindOf, Upper, SplitTrimmed, RelationOf, Merged;
    ConfigParses(p[0], word, kind, p[1], others, p[4], srcSchema, current, known);
  }

  /** A config whose word is no kind, as those of the comments are, is no relation. */
  lemma OtherWordsAreNoRelation(word: string, others: string, srcSchema: string, current: Option<Relation>, known: set<string>)
    requires Capitals(word) && word != "" && KindOf(word) == NoKind && others != "" && Trimmed(others)
    ensures RelationOf(word + "," + others, srcSchema, current, known) == NoRelation
  {
    CapitalsFacts(word);
    assert "" + (word + "," + ("" + others)) + "" == word + "," + others && Pad("");
    hide KindOf, Capitals, Trimmed, Pad, RelationOf;
    ConfigParses("", word, NoKind, "", others, "", srcSchema, current, known);
  }

  lemma ArrowTrimmed(a: string, q: string, r: string, b: string)
    requires PlainName(a) && PlainName(b)
    ensures var s := Arrow("", a, q, r, b, ""); s != "" && Trimmed(s)
  {
    var s := Arrow("", a, q, r, b, "");
    assert s[0] == a[0] && s[|s| - 1] == b[|b| - 1];
  }

  // ----- REFERENCES_MANY -----

  function Bridge(brg: string, first: string, second: string): string {
    brg + "(" + (first + "," + second + ")")
  }

  /** kind,bridge(src->brgSrc,dst->brgDst) with white space around the whole, the sides and their names. */
  function RenderMany(word: string, brg: string, src: string, brgSrc: string, dst: string, brgDst: string, p: seq<string>): string
    requires |p| == 11
  {
    p[0] + (word + "," + (p[1] + Bridge(brg, Arrow(p[3], src, p[4], p[5], brgSrc, p[6]), Arrow(p[7], dst, p[8], p[9], brgDst, p[10]))))
    + p[2]
  }

  lemma BridgeParts(brg: string, inner: string)
    requires PlainName(brg)
    ensures var s := brg + "(" + (inner + ")");
            var fi, li := Index(s, "("), LastIndex(s, ')');
            && fi == |brg| && fi < li && s[..fi] == brg && s[fi + 1..li] == inner && s != "" && Trimmed(s)
  {
    var s := brg + "(" + (inner + ")");
    AbsentStart(brg, "(", '(');
    IndexAfter(brg, "(", inner + ")");
    assert s[|s| - 1] == ')' && LastIndex(s, ')') == |s| - 1;
    assert s[0] == brg[0];
  }

  lemma SplitTwo(first: string, second: string)
    requires ',' !in first && ',' !in second
    ensures Split(first + "," + second, ",") == [first, second]
  {
    SplitFirst(first, ",", second, ',');
    SplitNone(second, ",", ',');
  }

  /** The relation a bridge config describes, for the field it stands on. */
  function Bridged(srcSchema: string, brg: string, src: string, brgSrc: string, dst: string, brgDst: string,
                   current: Option<Relation>, known: set<string>): Relation {
    Merged(Fresh(ReferencesMany, srcSchema), current).(
      brgSchema := brg, srcField := src, brgSrcField := brgSrc, dstField := dst, brgDstField := brgDst,
      brgIsNative := brg !in known)
  }

  /** An item of the bridge config: an arrow that is trimmed first and then split. */
  predicate IsSide(item: string, a: string, b: string) {
    ',' !in item && ';' !in item && SplitTrimmed(TrimSpace(item), "->", false) == [a, b]
  }

  lemma ArrowIsSide(p: seq<string>, a: string, b: string)
    requires |p| == 4 && (forall i :: 0 <= i < 4 ==> Pad(p[i])) && PlainName(a) && PlainName(b)
    ensures IsSide(Arrow(p[0], a, p[1], p[2], b, p[3]), a, b)
  {
    var item := Arrow(p[0], a, p[1], p[2], b, p[3]);
    ArrowHolds(p, a, b, ',');
    ArrowHolds(p, a, b, ';');
    var core := Arrow("", a, p[1], p[2], b, "");
    assert item == p[0] + core + p[3];
    ArrowTrimmed(a, p[1], p[2], b);
    TrimPadded(p[0], core, p[3]);
    SplitArrow("", a, p[1], p[2], b, "");
  }

  lemma ArrowHolds(p: seq<string>, a: string, b: string, c: char)
    requires |p| == 4 && (forall i :: 0 <= i < 4 ==> Pad(p[i])) && !IsSpace(c) && c != '-' && c != '>'
    requires c !in a && c !in b
    ensures c !in Arrow(p[0], a, p[1], p[2], b, p[3])
  {
    PadHolds(p[0], c);
    PadHolds(p[1], c);
    PadHolds(p[2], c);
    PadHolds(p[3], c);
    assert c !in p[0] + a + p[1] && c !in "->" && c !in p[2] + b + p[3];
  }

  lemma TwoSides(rel: Relation, first: string, second: string, src: string, brgSrc: string, dst: string, brgDst: string)
    requires IsSide(first, src, brgSrc) && IsSide(second, dst, brgDst)
    requires Split(first + "," + second, ",") == [first, second]
    ensures BridgeSides(rel, SplitTrimmed(first + "," + second, ",", false))
            == rel.(srcField := src, brgSrcField := brgSrc, dstField := dst, brgDstField := brgDst)
  {
    var x, y := TrimSpace(first), TrimSpace(second);
    TrimTwo(first, second);
    assert [x, y][..1] == [x] && [x][..0] == [];
    assert BridgeSides(rel, [x]) == rel.(srcField := src, brgSrcField := brgSrc);
  }

  /** The sides of a bridge, whatever their white space. */
  lemma SidesOf(p: seq<string>, src: string, brgSrc: string, dst: string, brgDst: string)
    requires AllPads(p, 11) && PlainName(src) && PlainName(brgSrc) && PlainName(dst) && PlainName(brgDst)
    ensures IsSide(Arrow(p[3], src, p[4], p[5], brgSrc, p[6]), src, brgSrc)
    ensures IsSide(Arrow(p[7], dst, p[8], p[9], brgDst, p[10]), dst, brgDst)
  {
    hide PlainName, IsSide, Pad, Arrow;
    ArrowIsSide(p[3..7], src, brgSrc);
    ArrowIsSide(p[7..11], dst, brgDst);
  }

  /** A relation through a bridge, parsed back. */
  lemma ManyRoundTrip(word: string, brg: string, src: string, brgSrc: string, dst: string, brgDst: string, p: seq<string>,
                      srcSchema: string, current: Option<Relation>, known: set<string>)
    requires IsWordFor(word, ReferencesMany) && AllPads(p, 11)
    requires PlainName(brg) && PlainName(src) && PlainName(brgSrc) && PlainName(dst) && PlainName(brgDst)
    ensures RelationOf(RenderMany(word, brg, src, brgSrc, dst, brgDst, p), srcSchema, current, known)
            == Parsed(Bridged(srcSchema, brg, src, brgSrc, dst, brgDst, current, known))
  {
    var first, second := Arrow(p[3], src, p[4], p[5], brgSrc, p[6]), Arrow(p[7], dst, p[8], p[9], brgDst, p[10]);
    SidesOf(p, src, brgSrc, dst, brgDst);
    hide Arrow;
    SidesRoundTrip(word, brg, src, brgSrc, dst, brgDst, first, second, p[..3], srcSchema, current, known);
  }

  lemma SidesRoundTrip(word: string, brg: string, src: string, brgSrc: string, dst: string, brgDst: string,
                       first: string, second: string, p: seq<string>,
                       srcSchema: string, current: Option<Relation>, known: set<string>)
    requires IsWordFor(word, ReferencesMany) && PlainName(brg)
    requires IsSide(first, src, brgSrc) && IsSide(second, dst, brgDst)
    requires |p| == 3 && forall i :: 0 <= i < 3 ==> Pad(p[i])
    ensures RelationOf(p[0] + (word + "," + (p[1] + Bridge(brg, first, second))) + p[2], srcSchema, current, known)
            == Parsed(Bridged(srcSchema, brg, src, brgSrc, dst, brgDst, current, known))
  {
    var inner := first + "," + second;
    var others := Bridge(brg, first, second);
    BridgeParts(brg, inner);
    ConfigParses(p[0], word, ReferencesMany, p[1], others, p[2], srcSchema, current, known);
    SplitTwo(first, second);
    hide RelationOf, RelationFrom, KindOf, Upper, PlainName, Pad;
    TwoSides(Merged(Fresh(ReferencesMany, srcSchema), current).(brgSchema := brg), first, second, src, brgSrc, dst, brgDst);
    ManyFrom(others, brg, inner, srcSchema, current, known);
  }

  lemma ManyFrom(others: string, brg: string, inner: string, srcSchema: string, current: Option<Relation>, known: set<string>)
    requires var fi, li := Index(others, "("), LastIndex(others, ')');
             0 <= fi < li && others[..fi] == brg && others[fi + 1..li] == inner
    ensures RelationFrom(ReferencesMany, others, srcSchema, current, known)
            == Parsed(BridgeSides(Merged(Fresh(ReferencesMany, srcSchema), current).(brgSchema := brg),
                                  SplitTrimmed(inner, ",", false)).(brgIsNative := brg !in known))
  {
  }

  // ----- tags -----

  lemma {:induction false} SplitJoin(es: seq<string>)
    requires es != [] && forall e :: e in es ==> ';' !in e
    ensures Split(Join(es, ";"), ";") == es
  {
    if |es| == 1 {
      SplitNone(es[0], ";", ';');
    } else {
      SplitJoin(es[1..]);
      SplitFirst(es[0], ";", Join(es[1..], ";"), ';');
    }
  }

  lemma {:induction false} TrimPartsConcat(a: seq<string>, b: seq<string>)
    ensures TrimParts(a + b, true) == TrimParts(a, true) + TrimParts(b, true)
  {
    if a == [] {
      assert a + b == b;
    } else {
      assert (a + b)[1..] == a[1..] + b;
      TrimPartsConcat(a[1..], b);
    }
  }

  lemma TrimPartsCons(x: string, rest: seq<string>)
    ensures TrimParts([x] + rest, true) == (if TrimSpace(x) == "" then [] else [TrimSpace(x)]) + TrimParts(rest, true)
  {
    assert ([x] + rest)[1..] == rest;
  }

  /** The first part of a text and the rest. */
  lemma FirstPart(s: string) returns (a: string, more: bool, b: string)
    ensures ';' !in a
    ensures more ==> s == a + ";" + b && |b| < |s| && Split(s, ";") == [a] + Split(b, ";")
    ensures !more ==> s == a && Split(s, ";") == [a]
  {
    var i := Index(s, ";");
    more := i >= 0;
    a, b := if more then s[..i] else s, if more then s[i + 1..] else "";
    NoSemicolonBefore(s, |a|);
    assert s[..|a|] == a;
    if more { assert s[i..i + 1] == ";"; }
  }

  /** White space in front of the first part. */
  lemma SplitDropFirst(s: string)
    requires s != "" && IsSpace(s[0])
    ensures SplitTrimmed(s, ";", true) == SplitTrimmed(s[1..], ";", true)
  {
    var a, more, b := FirstPart(s[1..]);
    var x := [s[0]] + a;
    assert ';' !in x && x[1..] == a;
    assert TrimSpace(x) == TrimSpace(a);
    if more {
      assert s == x + ";" + b;
      SplitFirst(x, ";", b, ';');
      TrimPartsCons(a, Split(b, ";"));
      TrimPartsCons(x, Split(b, ";"));
    } else {
      assert s == x;
      SplitNone(x, ";", ';');
      TrimPartsCons(a, []);
      TrimPartsCons(x, []);
      assert [a] + [] == [a] && [x] + [] == [x];
    }
  }

  lemma {:induction false} TrimDropLast(x: string, c: char)
    requires IsSpace(c)
    ensures TrimSpace(x + [c]) == TrimSpace(x)
  {
    if x == "" {
      assert x + [c] == [c] && [c][1..] == "";
    } else if IsSpace(x[0]) {
      assert (x + [c])[1..] == x[1..] + [c];
      TrimDropLast(x[1..], c);
    } else {
      assert (x + [c])[..|x|] == x;
    }
  }

  /** White space behind the last part. */
  lemma {:induction false} SplitDropLast(s: string, c: char)
    requires IsSpace(c)
    ensures SplitTrimmed(s + [c], ";", true) == SplitTrimmed(s, ";", true)
    decreases |s|
  {
    var a, more, b := FirstPart(s);
    if more {
      SplitDropLast(b, c);
      assert s + [c] == a + ";" + (b + [c]);
      SplitFirst(a, ";", b + [c], ';');
      TrimPartsCons(a, Split(b, ";"));
      TrimPartsCons(a, Split(b + [c], ";"));
    } else {
      assert ';' !in s + [c];
      SplitNone(s + [c], ";", ';');
      TrimDropLast(s, c);
      TrimPartsCons(s, []);
      TrimPartsCons(s + [c], []);
      assert [s] + [] == [s] && [s + [c]] + [] == [s + [c]];
    }
  }

  lemma NoSemicolonBefore(s: string, i: nat)
    requires i <= |s| && forall j :: 0 <= j < i ==> !Occurs(s, ";", j)
    ensures ';' !in s[..i]
  {
    forall j | 0 <= j < i ensures s[j] != ';' {
      assert s[j..j + 1] == [s[j]];
      assert !Occurs(s, ";", j);
    }
  }

  /** Trimming a tag before it is split changes nothing. */
  lemma {:induction false} SplitTrimLeft(s: string)
    ensures SplitTrimmed(TrimLeft(s), ";", true) == SplitTrimmed(s, ";", true)
  {
    if s != "" && IsSpace(s[0]) {
      SplitTrimLeft(s[1..]);
      SplitDropFirst(s);
    }
  }

  lemma {:induction false} SplitTrimRight(s: string)
    ensures SplitTrimmed(TrimRight(s), ";", true) == SplitTrimmed(s, ";", true)
  {
    if s != "" && IsSpace(s[|s| - 1]) {
      var t := s[..|s| - 1];
      SplitTrimRight(t);
      SplitDropLast(t, s[|s| - 1]);
      assert s == t + [s[|s| - 1]];
    }
  }

  /** The entry rel=config, with white space around its parts. */
  function RelEntry(p: seq<string>, config: string): string
    requires |p| == 4
  {
    KeyValue(p, "rel", config)
  }

  function KeyValue(p: seq<string>, key: string, value: string): string
    requires |p| == 4
  {
    p[0] + (key + p[1] + "=" + (p[2] + value)) + p[3]
  }

  lemma TagEntryAt(k: string, v: string)
    requires k != "" && '=' !in k
    ensures TagEntry(k + "=" + v) == (Lower(TrimSpace(k)), TrimSpace(v))
  {
    AbsentStart(k, "=", '=');
    IndexAfter(k, "=", v);
  }

  lemma TrimTail(s: string, p: string)
    requires s != "" && Trimmed(s) && Pad(p)
    ensures TrimSpace(s + p) == s && TrimSpace(p + s) == s
  {
    assert "" + s + p == s + p && p + s + "" == p + s;
    TrimPadded("", s, p);
    TrimPadded(p, s, "");
  }

  lemma CoreTrimmed(k: string, v: string)
    requires k != "" && v != "" && !IsSpace(k[0]) && !IsSpace(v[|v| - 1])
    ensures var c := k + "=" + v; c != "" && Trimmed(c)
  {
    var c := k + "=" + v;
    assert c[0] == k[0] && c[|c| - 1] == v[|v| - 1];
  }

  lemma KeyValueParses(p: seq<string>, key: string, value: string)
    requires |p| == 4 && (forall i :: 0 <= i < 4 ==> Pad(p[i])) && value != "" && Trimmed(value)
    requires key != "" && Trimmed(key) && '=' !in key
    ensures TrimSpace(KeyValue(p, key, value)) != ""
    ensures TagEntry(TrimSpace(KeyValue(p, key, value))) == (Lower(key), value)
  {
    var k, v := key + p[1], p[2] + value;
    CoreTrimmed(k, v);
    TrimPadded(p[0], k + "=" + v, p[3]);
    PadHolds(p[1], '=');
    TrimTail(key, p[1]);
    TrimTail(value, p[2]);
    TagEntryAt(k, v);
  }

  lemma RelEntryParses(p: seq<string>, config: string)
    requires |p| == 4 && (forall i :: 0 <= i < 4 ==> Pad(p[i])) && config != "" && Trimmed(config)
    ensures TrimSpace(RelEntry(p, config)) != ""
    ensures TagEntry(TrimSpace(RelEntry(p, config))) == ("rel", config)
  {
    KeyValueParses(p, "rel", config);
    LowerRel();
  }

  lemma LowerRel()
    ensures Lower("rel") == "rel"
  {
    assert "rel"[1..] == "el" && "el"[1..] == "l" && "l"[1..] == "";
    assert Lower("l") == "l" && Lower("el") == "el";
  }

  lemma TagMapSnoc(items: seq<string>, e: string)
    ensures TagMap(items + [e]) == TagMap(items)[TagEntry(e).0 := TagEntry(e).1]
  {
    assert (items + [e])[..|items|] == items;
  }

  lemma {:induction false} LastEntryWins(items: seq<string>, after: seq<string>, k: string)
    requires forall e :: e in after ==> TagEntry(e).0 != k
    requires k in TagMap(items)
    ensures k in TagMap(items + after) && TagMap(items + after)[k] == TagMap(items)[k]
  {
    if after == [] {
      assert items + after == items;
    } else {
      var most, last := after[..|after| - 1], after[|after| - 1];
      assert items + after == items + most + [last];
      TagMapSnoc(items + most, last);
      LastEntryWins(items, most, k);
    }
  }

  lemma {:induction false} TrimPartsKeys(es: seq<string>, k: string)
    requires forall e :: e in es ==> TagEntry(TrimSpace(e)).0 != k
    ensures forall t :: t in TrimParts(es, true) ==> TagEntry(t).0 != k
  {
    if es != [] {
      TrimPartsKeys(es[1..], k);
    }
  }

  /** The rel entry of a tag is found among any other entries that do not define rel after it. */
  lemma TagRoundTrip(before: seq<string>, p: seq<string>, config: string, after: seq<string>)
    requires |p| == 4 && (forall i :: 0 <= i < 4 ==> Pad(p[i]))
    requires config != "" && Trimmed(config) && ';' !in config
    requires forall e :: e in before + after ==> ';' !in e
    requires forall e :: e in after ==> TagEntry(TrimSpace(e)).0 != "rel"
    ensures var tag := Join(before + [RelEntry(p, config)] + after, ";");
            var parsed := TagMap(SplitTrimmed(TrimSpace(tag), ";", true));
            "rel" in parsed && parsed["rel"] == config
  {
    var e := RelEntry(p, config);
    var es := before + [e] + after;
    EntryHasNoSemicolon(p, config);
    forall x | x in es ensures ';' !in x {
      if x != e { assert x in before + after; }
    }
    SplitJoin(es);
    var tag := Join(es, ";");
    SplitTrimLeft(tag);
    SplitTrimRight(TrimLeft(tag));
    TrimPartsConcat(before + [e], after);
    TrimPartsConcat(before, [e]);
    RelEntryParses(p, config);
    var items := TrimParts(before, true) + [TrimSpace(e)];
    assert TrimParts([e], true) == [TrimSpace(e)] by { assert [e][1..] == []; }
    TagMapSnoc(TrimParts(before, true), TrimSpace(e));
    TrimPartsKeys(after, "rel");
    LastEntryWins(items, TrimParts(after, true), "rel");
  }

  lemma EntryHasNoSemicolon(p: seq<string>, config: string)
    requires |p| == 4 && (forall i :: 0 <= i < 4 ==> Pad(p[i])) && ';' !in config
    ensures ';' !in RelEntry(p, config)
  {
    PadHolds(p[0], ';');
    PadHolds(p[1], ';');
    PadHolds(p[2], ';');
    PadHolds(p[3], ';');
    assert ';' !in "rel" + p[1] + "=" + (p[2] + config);
  }

  /** What a tag says about the relation of its field. */
  function TaggedRelation(tag: string, srcSchema: string, current: Option<Relation>, known: set<string>): Parsed {
    var parsed := TagMap(SplitTrimmed(TrimSpace(tag), ";", true));
    if "rel" in parsed then RelationOf(parsed["rel"], srcSchema, current, known) else NoRelation
  }

  /** A config without outer white space fits into a tag entry. */
  lemma ConfigFits(word: string, pad: string, others: string)
    requires word != "" && Trimmed(word) && ';' !in word && Pad(pad) && others != "" && Trimmed(others) && ';' !in others
    ensures var c := "" + (word + "," + (pad + others)) + "";
            c != "" && Trimmed(c) && ';' !in c
  {
    var c := word + "," + (pad + others);
    PadHolds(pad, ';');
    assert ';' !in word + "," && ';' !in pad + others;
    assert "" + c + "" == c;
    assert c[0] == word[0] && c[|c| - 1] == others[|others| - 1];
  }

  // ----- whole relations -----

  /** The constant for a kind, schema.go:46-51. */
  function WordFor(kind: RelationKind): string
    requires kind != NoKind
  {
    match kind
    case HasOne => "HAS_ONE"
    case HasMany => "HAS_MANY"
    case ReferencesOne => "REFERENCES_ONE"
    case ReferencesMany => "REFERENCES_MANY"
  }

  lemma WordForIsWord(kind: RelationKind)
    requires kind != NoKind
    ensures IsWordFor(WordFor(kind), kind)
  {
    ConstantsAreCapitals();
    ConstantsAreKinds();
    hide KindOf, Capitals;
    ConstantIsWord(WordFor(kind), kind);
  }

  /** A relation whose names the grammar can carry. */
  predicate Renderable(rel: Relation) {
    && rel.kind != NoKind && PlainName(rel.srcField) && PlainName(rel.dstField)
    && (if rel.kind == ReferencesMany
        then PlainName(rel.brgSchema) && PlainName(rel.brgSrcField) && PlainName(rel.brgDstField)
        else rel.brgSchema == "" && rel.brgSrcField == "" && rel.brgDstField == "" && !rel.brgIsNative)
  }

  /** schema.go:393-402: what a field with a rel entry has before its config is parsed, its own name and its type's. */
  function Unparsed(field: string, dstSchema: string): Option<Relation> {
    Some(Relation(NoKind, field, "", "", dstSchema, "", "", "", "", false))
  }

  /** A relation in the documented grammar, with any white space around its parts. */
  function Render(rel: Relation, p: seq<string>): string
    requires rel.kind != NoKind && |p| == 11
  {
    if rel.kind == ReferencesMany
    then RenderMany(WordFor(rel.kind), rel.brgSchema, rel.srcField, rel.brgSrcField, rel.dstField, rel.brgDstField, p)
    else RenderDirect(WordFor(rel.kind), rel.srcField, rel.dstField, [p[0], p[1], p[4], p[5], p[2]])
  }

  /** The relation as it is parsed: whether a bridge is native is decided by the schemas known at the time. */
  function Reread(rel: Relation, known: set<string>): Relation {
    if rel.kind == ReferencesMany then rel.(brgIsNative := rel.brgSchema !in known) else rel
  }

  /** Rendering any relation and parsing it gives the relation, on a field that has nothing but names so far. */
  lemma RenderedRelationParses(rel: Relation, p: seq<string>, known: set<string>)
    requires Renderable(rel) && AllPads(p, 11)
    ensures RelationOf(Render(rel, p), rel.srcSchema, Unparsed(rel.field, rel.dstSchema), known) == Parsed(Reread(rel, known))
  {
    if rel.kind == ReferencesMany { RenderedManyParses(rel, p, known); } else { RenderedDirectParses(rel, p, known); }
  }

  lemma RenderedManyParses(rel: Relation, p: seq<string>, known: set<string>)
    requires Renderable(rel) && AllPads(p, 11) && rel.kind == ReferencesMany
    ensures RelationOf(Render(rel, p), rel.srcSchema, Unparsed(rel.field, rel.dstSchema), known) == Parsed(Reread(rel, known))
  {
    WordForIsWord(rel.kind);
    BridgedItself(rel, known);
    var word := WordFor(rel.kind);
    assert Render(rel, p) == RenderMany(word, rel.brgSchema, rel.srcField, rel.brgSrcField, rel.dstField, rel.brgDstField, p);
    hide *;
    ManyRoundTrip(word, rel.brgSchema, rel.srcField, rel.brgSrcField, rel.dstField, rel.brgDstField, p, rel.srcSchema,
                  Unparsed(rel.field, rel.dstSchema), known);
  }

  lemma FivePads(p: seq<string>)
    requires AllPads(p, 11)
    ensures AllPads([p[0], p[1], p[4], p[5], p[2]], 5)
  {
    hide Pad;
  }

  lemma RenderedDirectParses(rel: Relation, p: seq<string>, known: set<string>)
    requires Renderable(rel) && AllPads(p, 11) && rel.kind != ReferencesMany
    ensures RelationOf(Render(rel, p), rel.srcSchema, Unparsed(rel.field, rel.dstSchema), known) == Parsed(Reread(rel, known))
  {
    WordForIsWord(rel.kind);
    DirectItself(rel, known);
    var word, q := WordFor(rel.kind), [p[0], p[1], p[4], p[5], p[2]];
    assert Render(rel, p) == RenderDirect(word, rel.srcField, rel.dstField, q);
    FivePads(p);
    hide *;
    DirectRoundTrip(word, rel.kind, rel.srcField, rel.dstField, q, rel.srcSchema, Unparsed(rel.field, rel.dstSchema), known);
  }

  /** The names a field has are the ones a config does not give. */
  lemma BridgedItself(rel: Relation, known: set<string>)
    requires rel.kind == ReferencesMany
    ensures Bridged(rel.srcSchema, rel.brgSchema, rel.srcField, rel.brgSrcField, rel.dstField, rel.brgDstField,
                    Unparsed(rel.field, rel.dstSchema), known)
            == Reread(rel, known)
  {
  }

  lemma DirectItself(rel: Relation, known: set<string>)
    requires Renderable(rel) && rel.kind != ReferencesMany
    ensures Direct(rel.kind, rel.srcSchema, rel.srcField, rel.dstField, Unparsed(rel.field, rel.dstSchema)) == Reread(rel, known)
  {
  }

  lemma RenderedFits(rel: Relation, p: seq<string>)
    requires Renderable(rel) && AllPads(p, 11) && p[0] == "" && p[2] == ""
    ensures var config := Render(rel, p); config != "" && Trimmed(config) && ';' !in config
  {
    if rel.kind == ReferencesMany { ManyFits(rel, p); } else { DirectFits(rel, p); }
  }

  lemma ManyFits(rel: Relation, p: seq<string>)
    requires Renderable(rel) && AllPads(p, 11) && p[0] == "" && p[2] == "" && rel.kind == ReferencesMany
    ensures var config := Render(rel, p); config != "" && Trimmed(config) && ';' !in config
  {
    WordForIsWord(rel.kind);
    BridgeFits(rel, p);
    var word, others := WordFor(rel.kind), Bridge(rel.brgSchema, Arrow(p[3], rel.srcField, p[4], p[5], rel.brgSrcField, p[6]),
                                                  Arrow(p[7], rel.dstField, p[8], p[9], rel.brgDstField, p[10]));
    assert Render(rel, p) == "" + (word + "," + (p[1] + others)) + "";
    assert word != "" && Trimmed(word) && ';' !in word && Pad(p[1]);
    hide *;
    ConfigFits(word, p[1], others);
  }

  lemma DirectFits(rel: Relation, p: seq<string>)
    requires Renderable(rel) && AllPads(p, 11) && p[0] == "" && p[2] == "" && rel.kind != ReferencesMany
    ensures var config := Render(rel, p); config != "" && Trimmed(config) && ';' !in config
  {
    WordForIsWord(rel.kind);
    var q := [p[0], p[1], p[4], p[5], p[2]];
    assert Render(rel, p) == RenderDirect(WordFor(rel.kind), rel.srcField, rel.dstField, q);
    assert Pad(q[1]) && Pad(q[2]) && Pad(q[3]);
    hide Render, RenderDirect, WordFor, PlainName, Trimmed, IsWordFor, Pad;
    DirectTextFits(WordFor(rel.kind), rel.kind, rel.srcField, rel.dstField, q);
  }

  lemma DirectTextFits(word: string, kind: RelationKind, src: string, dst: string, q: seq<string>)
    requires IsWordFor(word, kind) && PlainName(src) && PlainName(dst)
    requires |q| == 5 && q[0] == "" && q[4] == "" && Pad(q[1]) && Pad(q[2]) && Pad(q[3])
    ensures var config := RenderDirect(word, src, dst, q); config != "" && Trimmed(config) && ';' !in config
  {
    var others := Arrow("", src, q[2], q[3], dst, "");
    ArrowTrimmed(src, q[2], q[3], dst);
    ArrowHolds(["", q[2], q[3], ""], src, dst, ';');
    hide Arrow, PlainName, KindOf, Upper, Trimmed, Pad;
    ConfigFits(word, q[1], others);
  }

  lemma BridgeFits(rel: Relation, p: seq<string>)
    requires Renderable(rel) && rel.kind == ReferencesMany && AllPads(p, 11)
    ensures var others := Bridge(rel.brgSchema, Arrow(p[3], rel.srcField, p[4], p[5], rel.brgSrcField, p[6]),
                                 Arrow(p[7], rel.dstField, p[8], p[9], rel.brgDstField, p[10]));
            others != "" && Trimmed(others) && ';' !in others
  {
    var first := Arrow(p[3], rel.srcField, p[4], p[5], rel.brgSrcField, p[6]);
    var second := Arrow(p[7], rel.dstField, p[8], p[9], rel.brgDstField, p[10]);
    SidesOf(p, rel.srcField, rel.brgSrcField, rel.dstField, rel.brgDstField);
    hide Arrow;
    var others := Bridge(rel.brgSchema, first, second);
    assert ';' !in first + "," + second + ")" && ';' !in rel.brgSchema + "(";
    assert others == rel.brgSchema + "(" + (first + "," + second + ")");
    assert others[0] == rel.brgSchema[0] && others[|others| - 1] == ')';
  }

  /** The same from inside a tag, among any other entries that do not define rel after it. */
  lemma TaggedRelationParses(rel: Relation, p: seq<string>, before: seq<string>, q: seq<string>, after: seq<string>, known: set<string>)
    requires Renderable(rel) && AllPads(p, 11) && p[0] == "" && p[2] == "" && AllPads(q, 4)
    requires forall e :: e in before + after ==> ';' !in e
    requires forall e :: e in after ==> TagEntry(TrimSpace(e)).0 != "rel"
    ensures TaggedRelation(Join(before + [RelEntry(q, Render(rel, p))] + after, ";"), rel.srcSchema,
                           Unparsed(rel.field, rel.dstSchema), known)
            == Parsed(Reread(rel, known))
  {
    RenderedFits(rel, p);
    RenderedRelationParses(rel, p, known);
    hide Render, RelationOf, Renderable;
    TagRoundTrip(before, q, Render(rel, p), after);
  }
}
