/** model.go, Result: collecting conditions, columns, orders, limit and offset; All, Count and Paginate. */
module Paging {
  import opened Strings
  import opened Maps
  import opened Schemas
  import opened Filters
  import opened SqlText
  import opened Tokens
  import opened SqlCondition
  import opened SqlStatement
  import opened Where
  import opened WhereProofs
  import opened NameLists
  import opened Queries
  import opened Disjunction
  import opened Faults
  import opened Float64
  import C = Conditions

  // ----- pages -----

  function Upto(n: nat, max: nat): nat { if n < max then n else max }

  function View<T>(rows: seq<T>, w: Window): seq<T> {
    match w
    case Everything => rows
    case Window(skip, take) => rows[Upto(skip, |rows|)..Upto(skip + take, |rows|)]
  }

  /** From an offset on no more rows than a limit allows; without a limit all of them, and a negative offset is none. */
  function Clip<T>(rows: seq<T>, limit: int, offset: int): seq<T> {
    var rest := if offset <= 0 then rows else if offset <= |rows| then rows[offset..] else [];
    if limit <= 0 then rows else if limit <= |rest| then rest[..limit] else rest
  }

  lemma ClipIsView<T>(rows: seq<T>, limit: int, offset: int)
    ensures View(rows, WindowOf(limit, offset)) == Clip(rows, limit, offset)
  {
  }

  /** Page p of size rows, as Paginate asks for it. */
  function Page<T>(rows: seq<T>, p: nat, size: nat): seq<T>
    requires p >= 1
  {
    Clip(rows, size, (p - 1) * size)
  }

  function FirstPages<T>(rows: seq<T>, size: nat, k: nat): seq<T> {
    if k == 0 then [] else FirstPages(rows, size, k - 1) + Page(rows, k, size)
  }

  lemma {:induction false} FirstPagesAre<T>(rows: seq<T>, size: nat, k: nat)
    requires size > 0
    ensures FirstPages(rows, size, k) == rows[..Upto(k * size, |rows|)]
  {
    if k > 0 {
      FirstPagesAre(rows, size, k - 1);
      ClipIsView(rows, size, (k - 1) * size);
      assert (k - 1) * size + size == k * size;
    }
  }

  /** The pages up to the last are the whole list; all but the last are full, and past the last there is nothing. */
  lemma PagesPartition<T>(rows: seq<T>, size: nat, p: nat)
    requires size > 0 && p >= 1
    ensures var pages := CeilDiv(|rows|, size);
            && FirstPages(rows, size, pages) == rows
            && (p < pages ==> |Page(rows, p, size)| == size)
            && (p == pages ==> 1 <= |Page(rows, p, size)| <= size)
            && (p > pages <==> Page(rows, p, size) == [])
  {
    hide CeilDiv;
    var pages, skip := CeilDiv(|rows|, size), (p - 1) * size;
    PageBounds(|rows|, size, p, skip);
    PageSize(rows, p, size, skip);
    AllPages(rows, size, pages);
  }

  lemma PageSize<T>(rows: seq<T>, p: nat, size: nat, skip: nat)
    requires size > 0 && p >= 1 && skip == (p - 1) * size
    ensures |Page(rows, p, size)| == Upto(skip + size, |rows|) - Upto(skip, |rows|)
  {
    assert WindowOf(size, skip) == Window(skip, size);
    ClipIsView(rows, size, skip);
  }

  lemma AllPages<T>(rows: seq<T>, size: nat, pages: nat)
    requires size > 0 && pages * size >= |rows|
    ensures FirstPages(rows, size, pages) == rows
  {
    FirstPagesAre(rows, size, pages);
  }

  lemma PageBounds(n: nat, size: nat, p: nat, skip: nat)
    requires size > 0 && p >= 1 && skip == (p - 1) * size
    ensures var pages := CeilDiv(n, size);
            && n <= pages * size
            && (p < pages ==> skip + size < n)
            && (p == pages ==> skip < n <= skip + size)
            && (p > pages ==> n <= skip)
  {
    var pages := CeilDiv(n, size);
    CeilDivBounds(n, size);
    assert p * size == skip + size;
    if p < pages {
      Scale(p + 1, pages, size);
      assert (p + 1) * size == skip + size + size;
    } else if p > pages {
      Scale(pages, p - 1, size);
    }
  }

  lemma CeilDivBounds(n: nat, d: nat)
    requires d > 0
    ensures n <= CeilDiv(n, d) * d < n + d
  {
    var x := n + d - 1;
    assert x == CeilDiv(n, d) * d + x % d;
  }

  // ----- running a query -----

  /** A row of the table: how it answers conditions, and the whole number in a column, if there is one. */
  datatype TableRow = TableRow(id: int, answers: Row, number: string -> Option<int>)

  /** What a query returns: rows of the table, or rows that hold a count. */
  datatype ResultSet = Rows(rows: seq<TableRow>) | Counts(ns: seq<nat>)

  datatype Model = Model(
    schema: Schema, dialect: Dialect, columns: seq<string>, rows: seq<TableRow>,
    grouping: Select -> Option<ResultSet>, divide: (int, int) -> real)
  {
    /** The quotient of two exact float64 numbers is rounded to nearest. */
    ghost predicate Rounds() {
      forall n: nat, d: nat :: n < EXACT && 1 <= d <= EXACT ==> IsNearest(n as real / d as real, divide(n, d))
    }
  }

  function Filtered(rows: seq<TableRow>, c: Cond): seq<TableRow> {
    if rows == [] then [] else (if Eval(c, rows[0].answers) == True then [rows[0]] else []) + Filtered(rows[1..], c)
  }

  predicate CountsRows(columns: seq<Token>) {
    && |columns| == 4 && columns[0].Word? && IsCountWord(columns[0].w) && columns[1] == LParen
    && (columns[2] == Word("*") || columns[2] == Word("1")) && columns[3] == RParen
  }

  /** A SELECT on the table. What a grouping gives depends on the database. */
  function Execute(m: Model, s: Select): Option<ResultSet> {
    if s.table != m.schema.nativeName then None
    else if s.groupBy != [] then m.grouping(s)
    else
      var rows := if s.cond == None then m.rows else Filtered(m.rows, s.cond.value);
      Some(if CountsRows(s.columns) then Counts(View([|rows|], s.window)) else Rows(View(rows, s.window)))
  }

  /** What the database makes of a text and its arguments. */
  function Run(m: Model, sql: string, args: seq<Value>): Option<ResultSet> {
    match ReadSelect(m.dialect, Lex(sql), args)
    case None => None
    case Some(s) => Execute(m, s)
  }

  predicate Keeps(sch: Schema, fs: seq<Filter>, row: Row) {
    var t := ListMeaning(sch, AndOp, fs, row);
    t == None || t == Some(True)
  }

  /** The rows the filters are true of, in their order. */
  function Kept(sch: Schema, fs: seq<Filter>, rows: seq<TableRow>): seq<TableRow> {
    if rows == [] then [] else
      (if Keeps(sch, fs, rows[0].answers) then [rows[0]] else []) + Kept(sch, fs, rows[1..])
  }

  function QueryText(m: Model, columns: seq<string>, fs: seq<Filter>, groupBys: string, limit: int, offset: int): string {
    SelectText(m.dialect, columns, m.schema.nativeName, MaybeText(ListDoc(m.schema, AndOp, fs)), groupBys, limit, offset)
  }

  /** What the query of a result without an order is meant to return. */
  function Meant(m: Model, columns: seq<string>, fs: seq<Filter>, limit: int, offset: int): ResultSet {
    var kept := Kept(m.schema, fs, m.rows);
    if IsCount(columns) then Counts(Clip([|kept|], limit, offset)) else Rows(Clip(kept, limit, offset))
  }

  /** Names fit to be read back, and nothing that formatSQL would mistake for its marker. */
  predicate Readable(m: Model, columns: seq<string>, fs: seq<Filter>, limit: int, offset: int) {
    && IsSelection(columns) && IsName(m.schema.nativeName) && AllPlain(m.schema, fs)
    && MarkerSafe(QueryText(m, columns, fs, "", limit, offset))
  }

  /** The final text of a query, run on the table, returns the window of the rows that the filters are true of. */
  lemma QueryReturnsWindow(m: Model, columns: seq<string>, fs: seq<Filter>, limit: int, offset: int)
    requires Readable(m, columns, fs, limit, offset)
    ensures Run(m, Formatted(QueryText(m, columns, fs, "", limit, offset)), MaybeArgs(ListDoc(m.schema, AndOp, fs)))
            == Some(Meant(m, columns, fs, limit, offset))
  {
    var d := ListDoc(m.schema, AndOp, fs);
    LiveWellFormed(m.schema, fs);
    NoGroup();
    CountIsCount(columns);
    if d == None { KeptAll(m.schema, fs, m.rows); } else { KeptFiltered(m.schema, fs, m.rows, Tree(d.value)); }
    ClipIsView([|Kept(m.schema, fs, m.rows)|], limit, offset);
    ClipIsView(Kept(m.schema, fs, m.rows), limit, offset);
    hide Lex, ReadSelect, Kept, Filtered, IsCount, CountsRows, SelectionTokens, IsSelection, MarkerSafe, View, Clip, SelectText,
         Formatted, IsName, AllPlain, WindowOf, Tree, WellFormed;
    SelectReads(m.dialect, columns, m.schema.nativeName, d, "", limit, offset);
  }

  lemma CountIsCount(columns: seq<string>)
    requires IsSelection(columns)
    ensures CountsRows(SelectionTokens(columns)) <==> IsCount(columns)
  {
    hide IsCountWord, IsName;
    if IsCount(columns) { CountSplit(columns[0], ""); }
    if |columns| > 1 { assert NameTokens(columns)[1] == Comma; }
  }

  lemma {:induction false} KeptAll(sch: Schema, fs: seq<Filter>, rows: seq<TableRow>)
    requires LiveDocs(sch, fs) == []
    ensures Kept(sch, fs, rows) == rows
  {
    if rows != [] {
      ListDocMeaning(sch, AndOp, fs, rows[0].answers);
      KeptAll(sch, fs, rows[1..]);
    }
  }

  lemma {:induction false} KeptFiltered(sch: Schema, fs: seq<Filter>, rows: seq<TableRow>, c: Cond)
    requires ListDoc(sch, AndOp, fs).Some? && c == Tree(ListDoc(sch, AndOp, fs).value)
    ensures Kept(sch, fs, rows) == Filtered(rows, c)
  {
    if rows != [] {
      ListDocMeaning(sch, AndOp, fs, rows[0].answers);
      KeptFiltered(sch, fs, rows[1..], c);
    }
  }

  // ----- columns and orders -----

  /** The keys of the scalar fields that are not left out, each once. */
  ghost predicate ListsKept(fields: map<string, Field>, omitted: seq<string>, ks: seq<string>) {
    && (forall k :: k in ks <==>
          k in fields && fields[k].typ in {"string", "int", "float", "bool", "time"} && fields[k].name !in omitted)
    && forall i, j :: 0 <= i < j < |ks| ==> ks[i] != ks[j]
  }

  ghost predicate AreNativeNames(fields: map<string, Field>, ks: seq<string>, columns: seq<string>) {
    |columns| == |ks| && forall i :: 0 <= i < |ks| ==> ks[i] in fields && columns[i] == fields[ks[i]].nativeName
  }

  /** model.go:596-625: the selected columns, in some order when fields are left out. */
  ghost predicate AreColumns(sch: Schema, names: seq<string>, isOmit: bool, columns: seq<string>) {
    if names == [] then columns == ["*"]
    else if isOmit then exists ks :: ListsKept(sch.fields, names, ks) && AreNativeNames(sch.fields, ks, columns)
    else |columns| == |names| && forall i :: 0 <= i < |names| ==> Denotes(sch, names[i], columns[i])
  }

  /** The column a key stands for, with DESC behind it or without. */
  ghost predicate IsOrder(sch: Schema, key: string, descending: bool, text: string) {
    exists col :: Denotes(sch, key, col) && text == col + if descending then " DESC" else ""
  }

  /** model.go:549-585: what is asked for as an order is written as a grouping. */
  ghost predicate IsGrouping(sch: Schema, orderBys: map<string, bool>, groupBys: string) {
    exists order, texts :: Enumerates(order, orderBys) && |texts| == |order| && groupBys == Join(texts, ",")
                           && forall i :: 0 <= i < |order| ==> IsOrder(sch, order[i], orderBys[order[i]], texts[i])
  }

  /** A name asks for an order by the key: ascending, or descending with a minus in front. */
  predicate Mentions(name: string, key: string) {
    TrimSpace(name) == "-" + key || (TrimSpace(name) == key && key != "" && key[0] != '-')
  }

  /** The key a name asks for, if it is not blank. */
  lemma MentionOf(name: string, key: string)
    ensures var t := TrimSpace(name);
            && (Mentions(name, key) <==> t != "" && key == if t[0] == '-' then t[1..] else t)
            && (Mentions(name, key) ==> (t == "-" + key <==> t[0] == '-'))
  {
    var t := TrimSpace(name);
    hide TrimSpace;
    assert t != "" && t[0] == '-' ==> t == "-" + t[1..];
    assert ("-" + key)[0] == '-' && ("-" + key)[1..] == key;
  }

  ghost predicate Unmentioned(names: seq<string>, key: string) { forall i :: 0 <= i < |names| ==> !Mentions(names[i], key) }

  /** Each key has the direction of its last mention, and the others stay as they were. */
  ghost predicate OrderedBy(before: map<string, bool>, names: seq<string>, after: map<string, bool>) {
    && (forall key :: Unmentioned(names, key) ==>
          (key in after <==> key in before) && (key in before ==> after[key] == before[key]))
    && (forall key, i :: 0 <= i < |names| && Mentions(names[i], key) && Unmentioned(names[i + 1..], key) ==>
          key in after && after[key] == (TrimSpace(names[i]) == "-" + key))
  }

  function OneOrder(orderBys: map<string, bool>, t: string): map<string, bool> {
    if t == "" then orderBys else if t[0] == '-' then orderBys[t[1..] := true] else orderBys[t := false]
  }

  lemma OneOrderAt(orderBys: map<string, bool>, name: string, key: string)
    ensures var after := OneOrder(orderBys, TrimSpace(name));
            if Mentions(name, key) then key in after && after[key] == (TrimSpace(name) == "-" + key)
            else (key in after <==> key in orderBys) && (key in orderBys ==> after[key] == orderBys[key])
  {
    hide TrimSpace, Mentions;
    MentionOf(name, key);
  }

  lemma UnmentionedConcat(a: seq<string>, name: string, key: string)
    ensures Unmentioned(a + [name], key) <==> Unmentioned(a, key) && !Mentions(name, key)
  {
    hide Mentions;
    var all := a + [name];
    if Unmentioned(all, key) {
      assert all[|a|] == name;
      forall i | 0 <= i < |a| ensures !Mentions(a[i], key) { assert all[i] == a[i]; }
    }
  }

  /** A name less at the end. */
  lemma LessMentioned(names: seq<string>, i: nat, key: string)
    requires i < |names|
    ensures Unmentioned(names[..i + 1], key) <==> Unmentioned(names[..i], key) && !Mentions(names[i], key)
  {
    assert names[..i + 1] == names[..i] + [names[i]];
    UnmentionedConcat(names[..i], names[i], key);
  }

  lemma LaterUnmentioned(names: seq<string>, i: nat, j: nat, key: string)
    requires j < i < |names|
    ensures Unmentioned(names[..i + 1][j + 1..], key) <==> Unmentioned(names[..i][j + 1..], key) && !Mentions(names[i], key)
  {
    assert names[..i + 1][j + 1..] == names[..i][j + 1..] + [names[i]];
    UnmentionedConcat(names[..i][j + 1..], names[i], key);
  }

  lemma OrderStep(before: map<string, bool>, names: seq<string>, i: nat, orderBys: map<string, bool>)
    requires i < |names| && OrderedBy(before, names[..i], orderBys)
    ensures OrderedBy(before, names[..i + 1], OneOrder(orderBys, TrimSpace(names[i])))
  {
    hide TrimSpace, Mentions, Unmentioned, OneOrder;
    var after, upto := OneOrder(orderBys, TrimSpace(names[i])), names[..i + 1];
    forall key | Unmentioned(upto, key) ensures (key in after <==> key in before) && (key in before ==> after[key] == before[key]) {
      LessMentioned(names, i, key);
      OneOrderAt(orderBys, names[i], key);
    }
    forall key, j | 0 <= j < |upto| && Mentions(upto[j], key) && Unmentioned(upto[j + 1..], key)
      ensures key in after && after[key] == (TrimSpace(upto[j]) == "-" + key)
    {
      OneOrderAt(orderBys, names[i], key);
      if j < i {
        LaterUnmentioned(names, i, j, key);
        assert names[..i][j] == upto[j];
      }
    }
  }

  // ----- counting -----

  function Width(m: Model, columns: seq<string>): nat {
    if columns == [] || columns == ["*"] then |m.columns| else |columns|
  }

  /** The first row scanned into one int: an error without a row, with more than one column, and on anything but a number. */
  function ScanInt(m: Model, columns: seq<string>, rs: ResultSet): Option<int> {
    match rs
    case Counts(ns) => if ns == [] then None else Some(ns[0])
    case Rows(rows) =>
      if rows == [] || Width(m, columns) != 1 then None
      else rows[0].number(if columns == [] || columns == ["*"] then m.columns[0] else columns[0])
  }

  /** What Count returns for a selection and filters, when no call fails. */
  function Counted(m: Model, columns: seq<string>, fs: seq<Filter>): Option<int> {
    ScanInt(m, columns, Meant(m, columns, fs, 0, 0))
  }

  /** A row count behind an offset finds no row to scan; any other one is the number of rows kept. */
  lemma RowCountScans(m: Model, columns: seq<string>, fs: seq<Filter>, limit: int, offset: int)
    requires IsCount(columns)
    ensures ScanInt(m, columns, Meant(m, columns, fs, limit, offset))
            == if limit > 0 && offset > 0 then None else Some(|Kept(m.schema, fs, m.rows)|)
  {
    hide IsCount, Kept;
  }

  /** The usual ways to write a row count. */
  lemma RowCounts()
    ensures IsCount(["COUNT(*)"]) && IsCount(["COUNT(1)"]) && IsCount(["count(*)"]) && IsCount(["count(1)"])
  {
    CountLetters("COUNT");
    CountLetters("count");
  }

  lemma CountLetters(w: string)
    requires w == "COUNT" || w == "count"
    ensures IsCountText(w + "(*)") && IsCountText(w + "(1)")
  {
    assert (w + "(*)")[..5] == w && (w + "(1)")[..5] == w;
  }

  // ----- Result -----

  function Wrap64(x: int): int {
    (x + 0x8000_0000_0000_0000) % 0x1_0000_0000_0000_0000 - 0x8000_0000_0000_0000
  }

  /** Go's int: the whole number that differs by a multiple of 2^64 and fits into 64 bits with a sign. */
  lemma WrapsAround(x: int)
    ensures -0x8000_0000_0000_0000 <= Wrap64(x) < 0x8000_0000_0000_0000
    ensures (x - Wrap64(x)) % 0x1_0000_0000_0000_0000 == 0
  {
  }

  class Result {
    const m: Model
    const calls: Calls
    var filters: seq<Filter>
    var orderBys: map<string, bool>
    var fields: seq<string>
    var isOmit: bool
    var limit: int
    var offset: int

    constructor (m: Model, calls: Calls)
      ensures this.m == m && this.calls == calls && filters == [] && orderBys == map[] && fields == [] && !isOmit
      ensures limit == 0 && offset == 0
    {
      this.m, this.calls := m, calls;
      filters, orderBys, fields, isOmit, limit, offset := [], map[], [], false, 0, 0;
    }

    /** model.go:310-318. A filter that And made is one more conjunct; those before it stay. */
    method And(conditions: seq<C.Arg>) returns (ok: bool)
      modifies this`filters
      ensures ok <==> !C.Panics(conditions)
      ensures exists b :: C.Builds(AndOp, conditions, b) &&
                filters == old(filters) + if b == C.Panicked || b.f == NilFilter then [] else [b.f]
    {
      var b := C.And(conditions);
      ok := b != C.Panicked;
      if |conditions| != 0 && ok && b.f != NilFilter {
        filters := filters + [b.f];
      }
    }

    /** model.go:320-328. */
    method Or(conditions: seq<C.Arg>) returns (ok: bool)
      modifies this`filters
      ensures ok <==> !C.Panics(conditions)
      ensures exists b :: C.Builds(OrOp, conditions, b) &&
                filters == old(filters) + if b == C.Panicked || b.f == NilFilter then [] else [b.f]
    {
      var b := C.Or(conditions);
      ok := b != C.Panicked;
      if |conditions| != 0 && ok && b.f != NilFilter {
        filters := filters + [b.f];
      }
    }

    /** model.go:330-346. */
    method OrderBy(names: seq<string>)
      modifies this`orderBys
      ensures OrderedBy(old(orderBys), names, orderBys)
    {
      ghost var before := orderBys;
      for i := 0 to |names|
        invariant OrderedBy(before, names[..i], orderBys)
      {
        hide OrderedBy, TrimSpace;
        OrderStep(before, names, i, orderBys);
        var name := TrimSpace(names[i]);
        if name == "" {
          continue;
        }
        if name[0] == '-' {
          orderBys := orderBys[name[1..] := true];
        } else {
          orderBys := orderBys[name := false];
        }
      }
      assert names[..|names|] == names;
    }

    /** model.go:358-372: the names as they were given replace those before. */
    method Fields(names: seq<string>, isOmit: bool)
      modifies this`fields, this`isOmit
      ensures names == [] ==> fields == old(fields) && this.isOmit == old(this.isOmit)
      ensures names != [] ==> fields == names && this.isOmit == isOmit
    {
      if |names| == 0 {
        return;
      }
      fields, this.isOmit := names, isOmit;
    }

    /** model.go:596-625. */
    method SelectColumns() returns (columns: seq<string>)
      ensures AreColumns(m.schema, fields, isOmit, columns)
    {
      if |fields| == 0 {
        return ["*"];
      }
      if isOmit {
        columns := KeptColumns();
        return;
      }
      columns := [];
      for i := 0 to |fields|
        invariant |columns| == i && forall j :: 0 <= j < i ==> Denotes(m.schema, fields[j], columns[j])
      {
        columns := columns + [Column(m.schema, fields[i])];
      }
    }

    /** model.go:598-609. */
    method KeptColumns() returns (columns: seq<string>)
      ensures exists ks :: ListsKept(m.schema.fields, fields, ks) && AreNativeNames(m.schema.fields, ks, columns)
    {
      var fs := m.schema.fields;
      var order := Range(fs);
      columns := [];
      ghost var ks: seq<string> := [];
      for i := 0 to |order|
        invariant AreNativeNames(fs, ks, columns)
        invariant forall k :: k in ks <==> k in order[..i] && fs[k].IsScalarType() && fs[k].name !in fields
        invariant forall a, b :: 0 <= a < b < |ks| ==> ks[a] != ks[b]
      {
        assert order[..i + 1] == order[..i] + [order[i]];
        assert order[i] !in order[..i];
        var f := fs[order[i]];
        if f.IsScalarType() && f.name !in fields {
          columns := columns + [f.nativeName];
          ks := ks + [order[i]];
        }
      }
      assert order[..|order|] == order;
    }

    /** model.go:549-565. */
    method ParseOrderBys() returns (text: string)
      ensures IsGrouping(m.schema, orderBys, text)
      ensures orderBys == map[] ==> text == ""
    {
      var order := Range(orderBys);
      var clauses: seq<string> := [];
      for i := 0 to |order|
        invariant |clauses| == i
        invariant forall j :: 0 <= j < i ==> IsOrder(m.schema, order[j], orderBys[order[j]], clauses[j])
      {
        var clause := Column(m.schema, order[i]);
        assert Denotes(m.schema, order[i], clause);
        if orderBys[order[i]] {
          clause := clause + " DESC";
        } else {
          assert clause + "" == clause;
        }
        clauses := clauses + [clause];
      }
      if order != [] { SomeOrder(orderBys, order); }
      text := Join(clauses, ",");
    }

    /** model.go:567-627, and the formatted text of the query template. */
    method BeforeQuery() returns (columns: seq<string>, sql: string, attrs: seq<Value>)
      ensures AreColumns(m.schema, fields, isOmit, columns)
      ensures exists groupBys :: IsGrouping(m.schema, orderBys, groupBys) && (orderBys == map[] ==> groupBys == "")
                && sql == Formatted(QueryText(m, columns, filters, groupBys, limit, offset))
      ensures attrs == MaybeArgs(ListDoc(m.schema, AndOp, filters))
    {
      hide Formatted, Normalised, MarkerSafe, QueryText, IsGrouping, AreColumns, MaybeArgs, MaybeText, ListDoc;
      var where;
      where, attrs := ParseWhere(m.schema, filters);
      var groupBys := ParseOrderBys();
      columns := SelectColumns();
      sql := FormatSQL(SelectText(m.dialect, columns, m.schema.nativeName, where, groupBys, limit, offset));
      assert sql == Formatted(QueryText(m, columns, filters, groupBys, limit, offset)) by {
        TextOfQuery(m, columns, filters, groupBys, limit, offset);
      }
    }

    /** model.go:878-885. The selected fields stay. */
    method Reset()
      modifies this
      ensures filters == [] && orderBys == map[] && limit == 0 && offset == 0
      ensures fields == old(fields) && isOmit == old(isOmit)
    {
      filters, orderBys, limit, offset := [], map[], 0, 0;
    }

    /** model.go:708-726, up to the population. Whatever the answer, everything but the fields is gone afterwards. */
    method All() returns (rs: Option<ResultSet>, columns: seq<string>)
      modifies this, calls
      ensures calls.clock == old(calls.clock) + 1 && AreColumns(m.schema, old(fields), old(isOmit), columns)
      ensures old(orderBys) == map[] && Readable(m, columns, old(filters), old(limit), old(offset)) ==>
                rs == if calls.faults(old(calls.clock)) then None
                      else Some(Meant(m, columns, old(filters), old(limit), old(offset)))
      ensures filters == [] && orderBys == map[] && limit == 0 && offset == 0
      ensures fields == old(fields) && isOmit == old(isOmit)
    {
      hide Run, Readable, Meant, AreColumns, QueryText;
      var sql, attrs;
      columns, sql, attrs := BeforeQuery();
      var answered := calls.Attempt();
      rs := if answered then Run(m, sql, attrs) else None;
      if orderBys == map[] && Readable(m, columns, filters, limit, offset) {
        QueryReturnsWindow(m, columns, filters, limit, offset);
      }
      Reset();
    }

    /** model.go:728-748: the query of All, its first row scanned into an int. */
    method Count() returns (n: Option<int>, columns: seq<string>)
      modifies this, calls
      ensures calls.clock == old(calls.clock) + 1 && AreColumns(m.schema, old(fields), old(isOmit), columns)
      ensures old(orderBys) == map[] && Readable(m, columns, old(filters), old(limit), old(offset)) ==>
                n == if calls.faults(old(calls.clock)) then None
                     else ScanInt(m, columns, Meant(m, columns, old(filters), old(limit), old(offset)))
      ensures filters == [] && orderBys == map[] && limit == 0 && offset == 0
      ensures fields == old(fields) && isOmit == old(isOmit)
    {
      hide Readable, Meant, AreColumns, ScanInt;
      var rs;
      rs, columns := All();
      n := if rs == None then None else ScanInt(m, columns, rs.value);
    }

    /**
     model.go:750-768. The page is taken from the rows the conditions keep. The total is what Count makes of the
     same selection without any conditions, because All has dropped them.
     */
    method Paginate(pageNum: int, pageSize: int)
      returns (ok: bool, dst: Option<ResultSet>, totalRecords: int, totalPages: int, listed: seq<string>, counted: seq<string>)
      requires m.Rounds()
      modifies this, calls
      ensures AreColumns(m.schema, old(fields), old(isOmit), listed)
      ensures old(orderBys) == map[] && NoFault(calls.faults, old(calls.clock), old(calls.clock) + 2)
              && Readable(m, listed, old(filters), pageSize, Wrap64((pageNum - 1) * pageSize)) && Readable(m, counted, [], 0, 0) ==>
                && dst == Some(Meant(m, listed, old(filters), pageSize, Wrap64((pageNum - 1) * pageSize)))
                && AreColumns(m.schema, old(fields), old(isOmit), counted)
                && ok == Counted(m, counted, []).Some?
                && (ok ==> totalRecords == Counted(m, counted, []).value)
      ensures ok && 0 <= totalRecords < EXACT && 1 <= pageSize <= EXACT ==> totalPages == CeilDiv(totalRecords, pageSize)
      ensures filters == [] && orderBys == map[] && limit == 0 && offset == 0
      ensures fields == old(fields) && isOmit == old(isOmit)
    {
      hide Readable, Meant, AreColumns, ScanInt, Wrap64, CeilDiv, Ceil, IsNearest;
      offset := Wrap64((pageNum - 1) * pageSize);
      limit := pageSize;
      ok, totalRecords, totalPages, counted := false, 0, 0, [];
      dst, listed := All();
      if dst == None {
        return;
      }
      offset, limit := 0, 0;
      var n;
      n, counted := Count();
      if n == None {
        return;
      }
      ok, totalRecords := true, n.value;
      totalPages := Ceil(m.divide(totalRecords, pageSize));
      CeilingIsExact(m, totalRecords, pageSize);
    }
  }

  lemma TextOfQuery(m: Model, columns: seq<string>, fs: seq<Filter>, groupBys: string, limit: int, offset: int)
    ensures QueryText(m, columns, fs, groupBys, limit, offset)
            == SelectText(m.dialect, columns, m.schema.nativeName, MaybeText(ListDoc(m.schema, AndOp, fs)), groupBys, limit, offset)
  {
  }

  lemma SomeOrder(orderBys: map<string, bool>, order: seq<string>)
    requires Enumerates(order, orderBys) && order != []
    ensures orderBys != map[]
  {
    assert order[0] in order;
  }

  lemma Quotient(n: nat, d: nat)
    requires d >= 1
    ensures n as real / d as real * d as real == n as real
  {
  }

  lemma CeilingIsExact(m: Model, n: int, d: int)
    requires m.Rounds()
    ensures 0 <= n < EXACT && 1 <= d <= EXACT ==> Ceil(m.divide(n, d)) == CeilDiv(n, d)
  {
    if 0 <= n < EXACT && 1 <= d <= EXACT {
      Quotient(n, d);
      PageCountIsExact(n, d, n as real / d as real, m.divide(n, d));
    }
  }

  /** For the pages that exist the 64-bit offset is the exact one. */
  lemma OffsetDoesNotWrap(n: nat, size: nat, p: nat)
    requires 1 <= size && 1 <= p <= CeilDiv(n, size) && n < EXACT
    ensures Wrap64((p - 1) * size) == (p - 1) * size
  {
    PageBounds(n, size, p, (p - 1) * size);
  }

  // ----- totals -----

  /** By default all columns are selected: unless there is exactly one, Count only ever returns an error. */
  lemma CountFailsByDefault(m: Model, fs: seq<Filter>)
    requires |m.columns| != 1
    ensures Counted(m, ["*"], fs) == None
  {
  }

  /** Of the selections read here, Count returns the number of rows on every table exactly when it is the row count. */
  lemma CountIsRowCountExactlyWhen(m: Model, columns: seq<string>, fs: seq<Filter>)
    requires IsSelection(columns)
    ensures (forall rows :: Counted(m.(rows := rows), columns, fs) == Some(|Kept(m.schema, fs, rows)|)) <==> IsCount(columns)
  {
    if !IsCount(columns) {
      var none: seq<TableRow> := [];
      assert Kept(m.schema, fs, none) == [];
      assert Counted(m.(rows := none), columns, fs) == None;
    }
  }

  lemma {:induction false} KeptFewer(sch: Schema, fs: seq<Filter>, rows: seq<TableRow>)
    ensures |Kept(sch, fs, rows)| <= |rows|
  {
    if rows != [] { KeptFewer(sch, fs, rows[1..]); }
  }

  /** Walking through as many pages as the whole table has meets every row that the conditions keep, once and in order. */
  lemma TablePagesCover(sch: Schema, fs: seq<Filter>, rows: seq<TableRow>, size: nat)
    requires size > 0
    ensures FirstPages(Kept(sch, fs, rows), size, CeilDiv(|rows|, size)) == Kept(sch, fs, rows)
  {
    KeptFewer(sch, fs, rows);
    CeilDivBounds(|rows|, size);
    AllPages(Kept(sch, fs, rows), size, CeilDiv(|rows|, size));
  }

  /** A row that answers no to everything is kept by no filters that say anything. */
  lemma NobodyKept(sch: Schema, fs: seq<Filter>) returns (rows: seq<TableRow>)
    requires ListDoc(sch, AndOp, fs).Some?
    ensures |rows| == 1 && Kept(sch, fs, rows) == []
  {
    var row := TrueOn({});
    rows := [TableRow(0, row, column => None)];
    ListDocMeaning(sch, AndOp, fs, row);
    ConstantItem(sch, Group(AndOp, fs), row, False);
    assert rows[1..] == [];
  }

  /**
   The total Paginate reports is the number of rows its conditions keep, on every table, exactly when the row count
   is selected and the conditions compile to no text at all.
   */
  lemma TotalFitsExactlyWhen(m: Model, columns: seq<string>, fs: seq<Filter>)
    requires IsSelection(columns)
    ensures (forall rows :: Counted(m.(rows := rows), columns, []) == Some(|Kept(m.schema, fs, rows)|))
            <==> IsCount(columns) && MaybeText(ListDoc(m.schema, AndOp, fs)) == ""
  {
    var d := ListDoc(m.schema, AndOp, fs);
    CountIsRowCountExactlyWhen(m, columns, []);
    if d.Some? { TextNonempty(d.value); }
    if IsCount(columns) && d == None {
      forall rows ensures Counted(m.(rows := rows), columns, []) == Some(|Kept(m.schema, fs, rows)|) {
        KeptAll(m.schema, fs, rows);
        KeptAll(m.schema, [], rows);
      }
    } else if IsCount(columns) {
      var rows := NobodyKept(m.schema, fs);
      KeptAll(m.schema, [], rows);
      assert Counted(m.(rows := rows), columns, []) == Some(1);
    } else {
      var none: seq<TableRow> := [];
      assert Kept(m.schema, fs, none) == [];
      assert Counted(m.(rows := none), columns, []) == None;
    }
  }
}
