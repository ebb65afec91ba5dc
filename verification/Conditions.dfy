/** filter.go: conditions of several kinds become filters; And and Or wrap them in one group. */
module Conditions {
  import opened Strings
  import opened Schemas
  import opened Filters
  import opened Maps

  /** One argument of And, Or or Find. Cond and map are one kind; a struct is the map of its fields, by pointer or by value. */
  datatype Arg =
    | NilArg
    | TextArg(s: string)
    | FilterArg(f: Filter)
    | FiltersArg(fs: seq<Filter>)
    | MapArg(m: map<string, Value>)
    | StructArg(m: map<string, Value>, byPointer: bool)
    | OtherArg(v: Value)

  /** An argument in the place of a value. Filters and maps there are opaque. */
  function AsValue(a: Arg): Value {
    match a
    case NilArg => Nil
    case TextArg(s) => Str(s)
    case OtherArg(v) => v
    case _ => Datum(0, "")
  }

  /** filter.go:53-64. What follows the first space is the operator, upper-cased and not trimmed. */
  function ParseEntryOp(rawKey: string): (r: (string, string)) {
    var raw := TrimSpace(rawKey);
    var i := Index(raw, " ");
    if i > 0 then (raw[..i], Upper(raw[i + 1..])) else (raw, "=")
  }

  /** "key op" splits at the space, for every key without spaces and every operator the compiler knows. */
  lemma ParseEntryOpSplits(key: string, op: string)
    requires key != "" && forall c :: c in key ==> !IsSpace(c)
    requires op != "" && Trimmed(op)
    ensures ParseEntryOp(key + " " + op) == (key, Upper(op))
    ensures ParseEntryOp(key) == (key, "=")
  {
    assert ' ' !in key;
    AbsentStart(key, " ", ' ');
    IndexAfter(key, " ", op);
    KeyAndOpTrimmed(key, op);
  }

  lemma KeyAndOpTrimmed(key: string, op: string)
    requires key != "" && (forall c :: c in key ==> !IsSpace(c)) && op != "" && Trimmed(op)
    ensures TrimSpace(key + " " + op) == key + " " + op && TrimSpace(key) == key
  {
    var s := key + " " + op;
    assert key[0] in key && key[|key| - 1] in key;
    assert s[0] == key[0] && s[|s| - 1] == op[|op| - 1];
    TrimSpaceTrims(s);
    TrimSpaceTrims(key);
  }

  // ----- pairs -----

  predicate IsPairs(cs: seq<Arg>) { |cs| % 2 == 0 && forall i :: 0 <= i < |cs| && i % 2 == 0 ==> cs[i].TextArg? }

  function PairEntry(key: string, value: Arg): Entry {
    var (k, op) := ParseEntryOp(key);
    Entry(k, op, AsValue(value))
  }

  function PairEntries(cs: seq<Arg>): seq<Entry>
    requires IsPairs(cs)
  {
    if cs == [] then [] else [PairEntry(cs[0].s, cs[1])] + PairEntries(cs[2..])
  }

  lemma PairsStep(cs: seq<Arg>)
    requires cs != [] && |cs| % 2 == 0
    ensures IsPairs(cs) <==> cs[0].TextArg? && IsPairs(cs[2..])
  {
    if cs[0].TextArg? && IsPairs(cs[2..]) {
      forall i | 0 <= i < |cs| && i % 2 == 0 ensures cs[i].TextArg? {
        if i >= 2 { assert cs[i] == cs[2..][i - 2] && (i - 2) % 2 == 0; }
      }
    } else if IsPairs(cs) {
      forall i | 0 <= i < |cs[2..]| && i % 2 == 0 ensures cs[2..][i].TextArg? {
        assert cs[2..][i] == cs[i + 2] && (i + 2) % 2 == 0;
      }
    }
  }

  /** The entries read so far and the conditions left are the whole list of pairs, if it is one. */
  predicate PairsLeft(all: seq<Arg>, done: seq<Entry>, rest: seq<Arg>) {
    && (IsPairs(all) <==> IsPairs(rest))
    && (IsPairs(rest) ==> done + PairEntries(rest) == PairEntries(all))
  }

  lemma PairsTurn(all: seq<Arg>, done: seq<Entry>, rest: seq<Arg>)
    requires PairsLeft(all, done, rest) && rest != [] && |rest| % 2 == 0
    ensures if rest[0].TextArg? then PairsLeft(all, done + [PairEntry(rest[0].s, rest[1])], rest[2..]) else !IsPairs(all)
  {
    PairsStep(rest);
    if IsPairs(rest) { Regroup(done, [PairEntry(rest[0].s, rest[1])], PairEntries(rest[2..])); }
  }

  lemma PairsStart(all: seq<Arg>)
    ensures PairsLeft(all, [], all)
  {
    if IsPairs(all) { assert [] + PairEntries(all) == PairEntries(all); }
  }

  lemma PairsEnd(all: seq<Arg>, done: seq<Entry>)
    requires PairsLeft(all, done, [])
    ensures IsPairs(all) && done == PairEntries(all)
  {
    assert IsPairs([]) && PairEntries([]) == [];
    assert done + [] == done;
  }

  // ----- maps, whose keys come in any order -----

  function MapEntries(m: map<string, Value>, order: seq<string>): seq<Entry>
    requires forall k :: k in order ==> k in m
  {
    if order == [] then [] else
      var k := TrimSpace(order[0]);
      (if k != "" && m[order[0]] != Nil then [Entry(k, "=", m[order[0]])] else []) + MapEntries(m, order[1..])
  }

  function StructEntries(m: map<string, Value>, order: seq<string>): seq<Entry>
    requires forall k :: k in order ==> k in m
  {
    if order == [] then [] else
      var (k, op) := ParseEntryOp(order[0]);
      [Entry(k, op, m[order[0]])] + StructEntries(m, order[1..])
  }

  /** What one argument adds to the list. */
  ghost predicate Adds(op: Operator, a: Arg, fs: seq<Filter>) {
    match a
    case NilArg => fs == []
    case TextArg(_) => fs == []
    case OtherArg(_) => fs == []
    case FilterArg(f) => fs == [f]
    case FiltersArg(gs) => fs == gs
    case MapArg(m) => exists order :: Enumerates(order, m) && fs == [Entries(op, MapEntries(m, order))]
    case StructArg(m, _) => exists order :: Enumerates(order, m) && fs == [Entries(op, StructEntries(m, order))]
  }

  ghost predicate AddsAll(op: Operator, cs: seq<Arg>, fs: seq<Filter>) {
    if cs == [] then fs == []
    else exists k :: 0 <= k <= |fs| && AddsAll(op, cs[..|cs| - 1], fs[..k]) && Adds(op, cs[|cs| - 1], fs[k..])
  }

  /** The address of a struct passed by value cannot be taken. */
  predicate Unaddressable(a: Arg) { a.StructArg? && !a.byPointer }

  /** Outside pairs one such struct is enough for a panic. */
  predicate Panics(conditions: seq<Arg>) {
    !IsPairs(conditions) && exists i :: 0 <= i < |conditions| && Unaddressable(conditions[i])
  }

  /** filter.go:90-186. */
  method ParseConditions(op: Operator, conditions: seq<Arg>) returns (ok: bool, filters: seq<Filter>)
    ensures ok <==> !Panics(conditions)
    ensures conditions == [] ==> filters == []
    ensures conditions != [] && IsPairs(conditions) ==> filters == [Entries(op, PairEntries(conditions))]
    ensures ok && conditions != [] && !IsPairs(conditions) ==> AddsAll(op, conditions, filters)
  {
    ok := true;
    if |conditions| == 0 {
      return true, [];
    }
    if |conditions| % 2 == 0 {
      var isPair, entries := ParsePairs(conditions);
      if isPair {
        return true, [Entries(op, entries)];
      }
    }
    filters := [];
    for i := 0 to |conditions|
      invariant AddsAll(op, conditions[..i], filters)
      invariant forall j :: 0 <= j < i ==> !Unaddressable(conditions[j])
    {
      var more;
      ok, more := ParseArg(op, conditions[i]);
      if !ok {
        return;
      }
      assert (filters + more)[..|filters|] == filters && (filters + more)[|filters|..] == more;
      assert conditions[..i + 1][..i] == conditions[..i];
      filters := filters + more;
    }
    assert conditions[..|conditions|] == conditions;
  }

  /** filter.go:102-136: the pair loop, which gives up at the first key that is no string. */
  method ParsePairs(conditions: seq<Arg>) returns (isPair: bool, entries: seq<Entry>)
    requires |conditions| % 2 == 0
    ensures isPair <==> IsPairs(conditions)
    ensures isPair ==> entries == PairEntries(conditions)
  {
    hide *;
    isPair, entries := true, [];
    var i := 0;
    PairsStart(conditions);
    assert conditions[i..] == conditions;
    while i < |conditions|
      invariant 0 <= i <= |conditions| && (|conditions| - i) % 2 == 0
      invariant isPair && PairsLeft(conditions, entries, conditions[i..])
    {
      PairsTurn(conditions, entries, conditions[i..]);
      if !conditions[i].TextArg? {
        isPair := false;
        break;
      }
      assert conditions[i..][2..] == conditions[i + 2..];
      entries := entries + [PairEntry(conditions[i].s, conditions[i + 1])];
      i := i + 2;
    }
    if isPair {
      assert conditions[i..] == [];
      PairsEnd(conditions, entries);
    }
  }

  /** filter.go:139-184, one turn. */
  method ParseArg(op: Operator, item: Arg) returns (ok: bool, more: seq<Filter>)
    ensures ok <==> !Unaddressable(item)
    ensures ok ==> Adds(op, item, more)
  {
    ok := true;
    match item {
      case NilArg => more := [];
      case TextArg(_) => more := [];
      case OtherArg(_) => more := [];
      case FilterArg(f) => more := [f];
      case FiltersArg(fs) => more := fs;
      case MapArg(m) =>
        var order := Range(m);
        var entries := ParseEntryList(m, order);
        more := [Entries(op, entries)];
      case StructArg(m, byPointer) =>
        if !byPointer {
          return false, [];
        }
        var order := Range(m);
        more := [Entries(op, StructEntries(m, order))];
    }
  }

  /** filter.go:188-201: empty keys and nil values are skipped. */
  method ParseEntryList(m: map<string, Value>, order: seq<string>) returns (entries: seq<Entry>)
    requires forall k :: k in order ==> k in m
    ensures entries == MapEntries(m, order)
  {
    entries := [];
    for i := 0 to |order|
      invariant entries + MapEntries(m, order[i..]) == MapEntries(m, order)
    {
      assert order[i..][0] == order[i] && order[i..][1..] == order[i + 1..];
      var key := TrimSpace(order[i]);
      var val := m[order[i]];
      ghost var rest := MapEntries(m, order[i + 1..]);
      if key != "" && val != Nil {
        Regroup(entries, [Entry(key, "=", val)], rest);
        entries := entries + [Entry(key, "=", val)];
      } else {
        assert [] + rest == rest;
      }
    }
  }

  /** What And or Or makes of its arguments: one AND group, or none when nothing was added, or a panic. */
  datatype Built = Panicked | Filter(f: Filters.Filter)

  ghost predicate Builds(op: Operator, conditions: seq<Arg>, b: Built) {
    && (b == Panicked <==> Panics(conditions))
    && (conditions == [] ==> b == Filter(NilFilter))
    && (conditions != [] && IsPairs(conditions) ==> b == Filter(Group(AndOp, [Entries(op, PairEntries(conditions))])))
    && (conditions != [] && !IsPairs(conditions) && b != Panicked ==>
          if b.f == NilFilter then AddsAll(op, conditions, [])
          else b.f.Group? && b.f.operator == AndOp && b.f.filters != [] && AddsAll(op, conditions, b.f.filters))
  }

  /** filter.go:66-76. */
  method And(conditions: seq<Arg>) returns (b: Built)
    ensures Builds(AndOp, conditions, b)
  {
    var ok, filters := ParseConditions(AndOp, conditions);
    b := if !ok then Panicked else if |filters| > 0 then Filter(Group(AndOp, filters)) else Filter(NilFilter);
  }

  /** filter.go:78-88. The group is an AND group, whatever the name says. */
  method Or(conditions: seq<Arg>) returns (b: Built)
    ensures Builds(OrOp, conditions, b)
  {
    var ok, filters := ParseConditions(OrOp, conditions);
    b := if !ok then Panicked else if |filters| > 0 then Filter(Group(AndOp, filters)) else Filter(NilFilter);
  }

  // ----- $EXISTS -----

  function Not3(t: Truth): Truth {
    match t
    case True => False
    case Unknown => Unknown
    case False => True
  }

  /** The null tests of a row whose column holds, or does not hold, NULL. */
  predicate Holds(row: Row, col: string, isNull: bool) {
    && row(col, IsNull, Nil) == (if isNull then True else False)
    && row(col, NotNull, Nil) == (if isNull then False else True)
    && (row(col, NotBlank, Nil) == Unknown <==> isNull)
  }

  /** `$EXISTS false` is the negation of `$EXISTS true` exactly off string fields and on NULL. */
  lemma ExistsFalseNegatesExactlyWhen(sch: Schema, key: string, row: Row, isNull: bool)
    requires Holds(row, Column(sch, key), isNull)
    ensures EntryMeaning(sch, Entry(key, "$EXISTS", Flag(false)), row)
            == Not3(EntryMeaning(sch, Entry(key, "$EXISTS", Flag(true)), row))
            <==> !IsStringField(sch, key) || isNull
  {
  }
}
