/** What conditions ask of a row, whatever kind they are and in whatever order their maps are walked. */
module ConditionMeaning {
  import opened Strings
  import opened StringLaws
  import opened Schemas
  import opened Filters
  import opened Conditions
  import opened Maps

  // ----- keys -----

  /** A key: without a space at its end or inside it asks for equality, else the operator stands behind the first space. */
  ghost predicate KeyReads(raw: string, key: string, op: string) {
    var t := TrimSpace(raw);
    if ' ' !in t then key == t && op == "="
    else ' ' !in key && exists rest :: t == key + " " + rest && op == Upper(rest)
  }

  lemma ParseEntryOpExactly(raw: string, key: string, op: string)
    ensures ParseEntryOp(raw) == (key, op) <==> KeyReads(raw, key, op)
  {
    hide TrimSpace, Upper, Index;
    var t := TrimSpace(raw);
    var i := Index(t, " ");
    CharFound(t, ' ');
    TrimmedStart(raw);
    if i > 0 { assert t == t[..i] + " " + t[i + 1..]; }
    if rest :| ' ' !in key && t == key + " " + rest && op == Upper(rest) {
      assert t[..|key|] == key && t[|key| + 1..] == rest;
      CharIs(t, ' ', |key|);
    }
  }

  lemma TrimmedStart(raw: string)
    ensures var t := TrimSpace(raw); t != "" ==> t[0] != ' '
  {
    hide TrimSpace;
    TrimSpaceTrims(raw);
  }

  // ----- entries and groups -----

  /** The row is kept: the filter is true of it, or says nothing. */
  predicate Accepts(sch: Schema, f: Filter, row: Row) {
    var t := Meaning(sch, f, row);
    t == None || t == Some(True)
  }

  predicate Holds(sch: Schema, e: Entry, row: Row) { EntryMeaning(sch, e, row) == True }

  ghost predicate EntriesHold(sch: Schema, op: Operator, es: seq<Entry>, row: Row) {
    if op == AndOp then forall i :: 0 <= i < |es| ==> Holds(sch, es[i], row)
    else es == [] || exists i :: 0 <= i < |es| && Holds(sch, es[i], row)
  }

  lemma {:induction false} MeaningAt(sch: Schema, es: seq<Entry>, row: Row, i: nat)
    requires i < |es|
    ensures EntryMeanings(sch, es, row)[i] == EntryMeaning(sch, es[i], row)
  {
    hide EntryMeaning;
    if i > 0 { MeaningAt(sch, es[1..], row, i - 1); }
  }

  lemma EntriesAccept(sch: Schema, op: Operator, es: seq<Entry>, row: Row)
    ensures Accepts(sch, Entries(op, es), row) <==> EntriesHold(sch, op, es, row)
  {
    hide EntryMeaning, EntryMeanings;
    var vs := EntryMeanings(sch, es, row);
    forall i | 0 <= i < |es| ensures vs[i] == True <==> Holds(sch, es[i], row) { MeaningAt(sch, es, row, i); }
    if es != [] {
      assert vs[0] in vs;
      if op == AndOp && Combined(op, vs) == True {
        forall i | 0 <= i < |es| ensures vs[i] == True { assert vs[i] in vs; }
      }
    }
  }

  predicate AllTrue(vs: seq<Truth>) { forall i :: 0 <= i < |vs| ==> vs[i] == True }

  lemma {:induction false} AnswersAccept(sch: Schema, fs: seq<Filter>, row: Row)
    ensures AllTrue(Answers(sch, fs, row)) <==> forall i :: 0 <= i < |fs| ==> Accepts(sch, fs[i], row)
  {
    hide Meaning, AllTrue;
    if fs == [] {
      assert AllTrue([]) by { OneMoreTrue(True, []); }
    } else {
      AnswersAccept(sch, fs[1..], row);
      var rest := Answers(sch, fs[1..], row);
      var m := Meaning(sch, fs[0], row);
      if m.Some? { OneMoreTrue(m.value, rest); }
      FirstAndRest(sch, fs, row);
    }
  }

  lemma OneMoreTrue(t: Truth, vs: seq<Truth>)
    ensures AllTrue([t] + vs) <==> t == True && AllTrue(vs)
    ensures AllTrue([])
  {
    if AllTrue([t] + vs) {
      assert ([t] + vs)[0] == t;
      forall i | 0 <= i < |vs| ensures vs[i] == True { assert ([t] + vs)[i + 1] == vs[i]; }
    }
  }

  lemma FirstAndRest(sch: Schema, fs: seq<Filter>, row: Row)
    requires fs != []
    ensures (forall i :: 0 <= i < |fs| ==> Accepts(sch, fs[i], row)) <==>
            Accepts(sch, fs[0], row) && forall i :: 0 <= i < |fs[1..]| ==> Accepts(sch, fs[1..][i], row)
  {
    hide Accepts;
    if forall i :: 0 <= i < |fs[1..]| ==> Accepts(sch, fs[1..][i], row) {
      forall i | 1 <= i < |fs| ensures Accepts(sch, fs[i], row) { assert fs[i] == fs[1..][i - 1]; }
    }
  }

  lemma AllTrueCombines(vs: seq<Truth>)
    ensures Combined(AndOp, vs) == True <==> AllTrue(vs)
  {
    if False in vs { assert !AllTrue(vs); }
    if Unknown in vs { assert !AllTrue(vs); }
  }

  lemma GroupAccepts(sch: Schema, fs: seq<Filter>, row: Row)
    ensures Accepts(sch, Group(AndOp, fs), row) <==> forall i :: 0 <= i < |fs| ==> Accepts(sch, fs[i], row)
  {
    hide Answers, AllTrue, Combined;
    AnswersAccept(sch, fs, row);
    var vs := Answers(sch, fs, row);
    AllTrueCombines(vs);
    OneMoreTrue(True, vs);
    assert Meaning(sch, Group(AndOp, fs), row) == ListMeaning(sch, AndOp, fs, row);
  }

  // ----- what each kind of condition asks -----

  /** An entry of a map holds: equality on the trimmed key. Blank keys and nil values ask nothing. */
  predicate Live(k: string, v: Value) { TrimSpace(k) != "" && v != Nil }

  ghost predicate MapHolds(sch: Schema, op: Operator, m: map<string, Value>, row: Row) {
    if op == AndOp then forall k :: k in m && Live(k, m[k]) ==> Holds(sch, Entry(TrimSpace(k), "=", m[k]), row)
    else
      || (forall k :: k in m ==> !Live(k, m[k]))
      || exists k :: k in m && Live(k, m[k]) && Holds(sch, Entry(TrimSpace(k), "=", m[k]), row)
  }

  /** A key and a value as an entry. */
  ghost predicate Asks(sch: Schema, raw: string, v: Value, row: Row) {
    exists key, op :: KeyReads(raw, key, op) && Holds(sch, Entry(key, op, v), row)
  }

  /** Of a struct every field counts, nil or not. */
  ghost predicate StructHolds(sch: Schema, op: Operator, m: map<string, Value>, row: Row) {
    if op == AndOp then forall k :: k in m ==> Asks(sch, k, m[k], row)
    else m == map[] || exists k :: k in m && Asks(sch, k, m[k], row)
  }

  /** An argument stands for a value: nil, a string and everything else for itself, the rest for something opaque. */
  predicate StandsForValue(a: Arg, v: Value) {
    match a
    case NilArg => v == Nil
    case TextArg(s) => v == Str(s)
    case OtherArg(x) => v == x
    case FilterArg(_) => v == Datum(0, "")
    case FiltersArg(_) => v == Datum(0, "")
    case MapArg(_) => v == Datum(0, "")
    case StructArg(_, _) => v == Datum(0, "")
  }

  ghost predicate PairAsks(sch: Schema, raw: string, value: Arg, row: Row) {
    exists v :: StandsForValue(value, v) && Asks(sch, raw, v, row)
  }

  ghost predicate PairsHold(sch: Schema, op: Operator, cs: seq<Arg>, row: Row)
    requires IsPairs(cs)
  {
    if op == AndOp then forall i :: 0 <= i < |cs| && i % 2 == 0 ==> PairAsks(sch, cs[i].s, cs[i + 1], row)
    else exists i :: 0 <= i < |cs| && i % 2 == 0 && PairAsks(sch, cs[i].s, cs[i + 1], row)
  }

  /** One argument beside others. */
  ghost predicate ArgHolds(sch: Schema, op: Operator, a: Arg, row: Row) {
    match a
    case NilArg => true
    case TextArg(_) => true
    case OtherArg(_) => true
    case FilterArg(f) => Accepts(sch, f, row)
    case FiltersArg(fs) => forall i :: 0 <= i < |fs| ==> Accepts(sch, fs[i], row)
    case MapArg(m) => MapHolds(sch, op, m, row)
    case StructArg(m, _) => StructHolds(sch, op, m, row)
  }

  // ----- the filters do ask that -----

  lemma {:induction false} MapEntryAt(m: map<string, Value>, order: seq<string>, e: Entry)
    requires forall k :: k in order ==> k in m
    ensures e in MapEntries(m, order) <==> exists k :: k in order && Live(k, m[k]) && e == Entry(TrimSpace(k), "=", m[k])
  {
    hide TrimSpace;
    if order != [] {
      var k, rest := order[0], order[1..];
      MapEntryAt(m, rest, e);
      assert forall j :: j in order <==> j == k || j in rest;
    }
  }

  lemma MapAccepts(sch: Schema, op: Operator, m: map<string, Value>, order: seq<string>, row: Row)
    requires Enumerates(order, m)
    ensures EntriesHold(sch, op, MapEntries(m, order), row) <==> MapHolds(sch, op, m, row)
  {
    hide Live, Holds, MapEntries, TrimSpace;
    var es := MapEntries(m, order);
    forall e ensures e in es <==> exists k :: k in order && Live(k, m[k]) && e == Entry(TrimSpace(k), "=", m[k]) {
      MapEntryAt(m, order, e);
    }
    forall k | k in m && Live(k, m[k]) ensures Entry(TrimSpace(k), "=", m[k]) in es {}
    InEntries(sch, op, es, row);
    if es != [] { assert es[0] in es; }
  }

  /** The entries a group asks for, in no order. */
  lemma InEntries(sch: Schema, op: Operator, es: seq<Entry>, row: Row)
    ensures EntriesHold(sch, op, es, row) <==>
            if op == AndOp then forall e :: e in es ==> Holds(sch, e, row) else es == [] || exists e :: e in es && Holds(sch, e, row)
  {
    hide Holds;
    if op == AndOp && forall e :: e in es ==> Holds(sch, e, row) {
      forall i | 0 <= i < |es| ensures Holds(sch, es[i], row) { assert es[i] in es; }
    }
  }

  /** A raw key and a value as an entry. */
  function KeyedEntry(raw: string, v: Value): Entry {
    var (key, op) := ParseEntryOp(raw);
    Entry(key, op, v)
  }

  lemma AskedBy(sch: Schema, raw: string, v: Value, row: Row)
    ensures Asks(sch, raw, v, row) <==> Holds(sch, KeyedEntry(raw, v), row)
  {
    hide Holds, KeyReads, ParseEntryOp;
    var (key, op) := ParseEntryOp(raw);
    ParseEntryOpExactly(raw, key, op);
    if key', op' :| KeyReads(raw, key', op') && Holds(sch, Entry(key', op', v), row) { ParseEntryOpExactly(raw, key', op'); }
  }

  lemma {:induction false} StructEntryAt(m: map<string, Value>, order: seq<string>, e: Entry)
    requires forall k :: k in order ==> k in m
    ensures e in StructEntries(m, order) <==>
            exists k :: k in order && e == KeyedEntry(k, m[k])
    ensures |StructEntries(m, order)| == |order|
  {
    hide ParseEntryOp;
    if order != [] {
      var k, rest := order[0], order[1..];
      StructEntryAt(m, rest, e);
      assert forall j :: j in order <==> j == k || j in rest;
    }
  }

  lemma StructAccepts(sch: Schema, op: Operator, m: map<string, Value>, order: seq<string>, row: Row)
    requires Enumerates(order, m)
    ensures EntriesHold(sch, op, StructEntries(m, order), row) <==> StructHolds(sch, op, m, row)
  {
    hide Holds, StructEntries, KeyedEntry, Asks;
    var es := StructEntries(m, order);
    forall e ensures e in es <==> exists k :: k in order && e == KeyedEntry(k, m[k]) {
      StructEntryAt(m, order, e);
    }
    StructEntryAt(m, order, Entry("", "", Nil));
    forall k | k in m ensures KeyedEntry(k, m[k]) in es && (Asks(sch, k, m[k], row) <==> Holds(sch, KeyedEntry(k, m[k]), row)) {
      AskedBy(sch, k, m[k], row);
    }
    InEntries(sch, op, es, row);
    if order != [] { assert order[0] in m; }
  }

  lemma ValueIs(a: Arg, v: Value)
    ensures StandsForValue(a, v) <==> v == AsValue(a)
  {
  }

  lemma PairIs(sch: Schema, raw: string, a: Arg, row: Row)
    ensures PairAsks(sch, raw, a, row) <==> Holds(sch, PairEntry(raw, a), row)
  {
    hide Holds, Asks, StandsForValue, AsValue, ParseEntryOp;
    ValueIs(a, AsValue(a));
    AskedBy(sch, raw, AsValue(a), row);
    if v :| StandsForValue(a, v) && Asks(sch, raw, v, row) { ValueIs(a, v); }
  }

  lemma {:induction false} PairEntryAt(cs: seq<Arg>, i: nat)
    requires IsPairs(cs) && 2 * i < |cs|
    ensures |PairEntries(cs)| == |cs| / 2 && PairEntries(cs)[i] == PairEntry(cs[2 * i].s, cs[2 * i + 1])
  {
    hide PairEntry;
    PairsStep(cs);
    if |cs| > 2 { PairEntryAt(cs[2..], if i > 0 then i - 1 else 0); }
  }

  lemma PairsAccept(sch: Schema, op: Operator, cs: seq<Arg>, row: Row)
    requires IsPairs(cs) && cs != []
    ensures EntriesHold(sch, op, PairEntries(cs), row) <==> PairsHold(sch, op, cs, row)
  {
    hide Holds, PairEntries, PairAsks, PairEntry;
    var es := PairEntries(cs);
    PairEntryAt(cs, 0);
    forall j | 0 <= j < |cs| && j % 2 == 0 ensures PairAsks(sch, cs[j].s, cs[j + 1], row) <==> Holds(sch, es[j / 2], row) {
      PairEntryAt(cs, j / 2);
      PairIs(sch, cs[j].s, cs[j + 1], row);
    }
    forall i | 0 <= i < |es| ensures Holds(sch, es[i], row) <==> PairAsks(sch, cs[2 * i].s, cs[2 * i + 1], row) {
      assert (2 * i) % 2 == 0 && (2 * i) / 2 == i;
    }
  }

  predicate AllAccept(sch: Schema, fs: seq<Filter>, row: Row) { forall i :: 0 <= i < |fs| ==> Accepts(sch, fs[i], row) }

  lemma OneAccepts(sch: Schema, fs: seq<Filter>, row: Row)
    requires |fs| == 1
    ensures AllAccept(sch, fs, row) <==> Accepts(sch, fs[0], row)
  {
  }

  lemma AddsAccept(sch: Schema, op: Operator, a: Arg, fs: seq<Filter>, row: Row)
    requires Adds(op, a, fs)
    ensures AllAccept(sch, fs, row) <==> ArgHolds(sch, op, a, row)
  {
    hide Accepts, EntriesHold, MapHolds, StructHolds, MapEntries, StructEntries;
    if |fs| == 1 { OneAccepts(sch, fs, row); }
    match a {
      case MapArg(m) =>
        var order :| Enumerates(order, m) && fs == [Entries(op, MapEntries(m, order))];
        MapAccepts(sch, op, m, order, row);
        EntriesAccept(sch, op, MapEntries(m, order), row);
      case StructArg(m, _) =>
        var order :| Enumerates(order, m) && fs == [Entries(op, StructEntries(m, order))];
        StructAccepts(sch, op, m, order, row);
        EntriesAccept(sch, op, StructEntries(m, order), row);
      case _ =>
    }
  }

  lemma {:induction false} AddsAllAccept(sch: Schema, op: Operator, cs: seq<Arg>, fs: seq<Filter>, row: Row)
    requires AddsAll(op, cs, fs)
    ensures AllAccept(sch, fs, row) <==> forall i :: 0 <= i < |cs| ==> ArgHolds(sch, op, cs[i], row)
  {
    hide Accepts, ArgHolds, Adds;
    if cs != [] {
      var n := |cs| - 1;
      var k :| 0 <= k <= |fs| && AddsAll(op, cs[..n], fs[..k]) && Adds(op, cs[n], fs[k..]);
      AddsAllAccept(sch, op, cs[..n], fs[..k], row);
      AddsAccept(sch, op, cs[n], fs[k..], row);
      AcceptSplit(sch, fs, k, row);
      assert forall i :: 0 <= i < n ==> cs[..n][i] == cs[i];
    }
  }

  lemma AcceptSplit(sch: Schema, fs: seq<Filter>, k: nat, row: Row)
    requires k <= |fs|
    ensures AllAccept(sch, fs, row) <==> AllAccept(sch, fs[..k], row) && AllAccept(sch, fs[k..], row)
  {
    hide Accepts;
    if AllAccept(sch, fs[..k], row) && AllAccept(sch, fs[k..], row) {
      forall i | 0 <= i < |fs| ensures Accepts(sch, fs[i], row) {
        if i < k { assert fs[i] == fs[..k][i]; } else { assert fs[i] == fs[k..][i - k]; }
      }
    }
  }

  /**
   And and Or on any conditions: pairs ask for all, or one, of their entries. Otherwise every argument has to hold, under
   Or too, and a map or a struct asks for all, or one, of its entries.
   */
  lemma BuiltAccepts(sch: Schema, op: Operator, conditions: seq<Arg>, b: Built, row: Row)
    requires Builds(op, conditions, b) && b != Panicked
    ensures Accepts(sch, b.f, row) <==>
            if conditions != [] && IsPairs(conditions) then PairsHold(sch, op, conditions, row)
            else forall i :: 0 <= i < |conditions| ==> ArgHolds(sch, op, conditions[i], row)
  {
    hide Accepts, ArgHolds, Adds, EntriesHold, PairEntries, PairAsks, IsPairs;
    NilAccepts(sch, row);
    if conditions != [] && IsPairs(conditions) {
      var f := Entries(op, PairEntries(conditions));
      PairsAccept(sch, op, conditions, row);
      EntriesAccept(sch, op, PairEntries(conditions), row);
      GroupAccepts(sch, [f], row);
      assert [f][0] == f;
    } else if conditions != [] {
      var fs := if b.f == NilFilter then [] else b.f.filters;
      AddsAllAccept(sch, op, conditions, fs, row);
      if b.f != NilFilter { GroupAccepts(sch, fs, row); }
    }
  }

  lemma NilAccepts(sch: Schema, row: Row)
    ensures Accepts(sch, NilFilter, row)
  {
  }
}
