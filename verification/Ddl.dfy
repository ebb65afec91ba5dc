/** GenDDL of the three drivers, and the statements that BatchExec makes of its text. */
module Ddl {
  import opened Strings
  import opened Maps
  import opened Schemas
  import opened SqlText
  import opened SqlTextLaws
  import opened ClosedText
  import opened BatchExec
  import opened Scripts

  // ----- the text -----

  function Quoted(d: Dialect, name: string): string {
    if d == Postgres then "\"" + name + "\"" else "`" + name + "`"
  }

  /** The type of a column whose field names none; "" for object and array fields. */
  function DefaultType(d: Dialect, f: Field): string {
    if f.typ == STRING then "TEXT"
    else if f.typ == INTEGER then
      match d
      case MySQL => "BIGINT"
      case Postgres => if f.isAutoIncrement then "BIGSERIAL" else "BIGINT"
      case SQLite => "INTEGER"
    else if f.typ == FLOAT then
      match d
      case MySQL => "DOUBLE"
      case Postgres => "DOUBLE PRECISION"
      case SQLite => "REAL"
    else if f.typ == BOOLEAN then
      match d
      case MySQL => "TINYINT(1)"
      case Postgres => "BOOLEAN"
      case SQLite => "INTEGER"
    else if f.typ == TIME then
      match d
      case MySQL => "DATETIME(3)"
      case Postgres => "TIMESTAMP WITH TIME ZONE"
      case SQLite => "DATETIME"
    else ""
  }

  function ColumnType(d: Dialect, f: Field): string {
    var t := TrimSpace(f.nativeType);
    if t == "" then DefaultType(d, f) else t
  }

  predicate Typed(d: Dialect, f: Field) { ColumnType(d, f) != "" }

  function Nullness(d: Dialect, f: Field): string {
    if d == SQLite && f.isPrimary then "" else if f.IsRequired() || f.isPrimary then " NOT NULL" else " NULL"
  }

  function Comment(d: Dialect, f: Field): string {
    if d == SQLite || f.title == "" then "" else " COMMENT " + ("'" + f.title + "'")
  }

  function ColumnText(d: Dialect, f: Field): string {
    Quoted(d, f.nativeName) + ("\t" + ColumnType(d, f)
      + (if d == MySQL && f.isUnsigned then " UNSIGNED" else "")
      + Nullness(d, f)
      + (if d == MySQL && f.isAutoIncrement then " AUTO_INCREMENT" else "")) + Comment(d, f)
  }

  /** The fields that become columns. */
  function Columns(d: Dialect, fields: map<string, Field>, order: seq<string>): seq<Field>
    requires forall k :: k in order ==> k in fields
  {
    if order == [] then [] else
      (if Typed(d, fields[order[0]]) then [fields[order[0]]] else []) + Columns(d, fields, order[1..])
  }

  function ColumnTexts(d: Dialect, fs: seq<Field>): (r: seq<string>)
    ensures |r| == |fs|
  {
    if fs == [] then [] else [ColumnText(d, fs[0])] + ColumnTexts(d, fs[1..])
  }

  function KeyNames(d: Dialect, fs: seq<Field>): seq<string> {
    if fs == [] then [] else
      (if fs[0].isPrimary then [if d == SQLite then fs[0].nativeName else Quoted(d, fs[0].nativeName)] else [])
      + KeyNames(d, fs[1..])
  }

  /** SQLite's key clause is written even with nothing in it. */
  function KeyClause(d: Dialect, key: seq<string>): seq<string> {
    if d != SQLite && key == [] then [] else ["PRIMARY KEY (" + Join(key, ",") + ")"]
  }

  function TableText(d: Dialect, table: string, lines: seq<string>): string {
    var body := Join(lines, ",\n");
    "CREATE TABLE IF NOT EXISTS " + Quoted(d, table) + (if d == Postgres then " (" + body + ")" else " (\n" + body + "\n)")
  }

  /** One CREATE TABLE, without its semicolon. */
  function CreateTable(d: Dialect, table: string, fs: seq<Field>): string {
    TableText(d, table, ColumnTexts(d, fs) + KeyClause(d, KeyNames(d, fs)))
  }

  /** An iteration order of the field map of each named schema. */
  ghost predicate OrdersFit(schs: map<string, Schema>, names: seq<string>, orders: seq<seq<string>>) {
    |orders| == |names| && forall i :: 0 <= i < |names| ==> names[i] in schs && Enumerates(orders[i], schs[names[i]].fields)
  }

  function TableOf(d: Dialect, sch: Schema, order: seq<string>): seq<string>
    requires forall k :: k in order ==> k in sch.fields
  {
    var fs := Columns(d, sch.fields, order);
    if fs == [] then [] else [CreateTable(d, sch.nativeName, fs)]
  }

  /** One table for each schema that has a column, in the order of the names. */
  ghost function Tables(d: Dialect, schs: map<string, Schema>, names: seq<string>, orders: seq<seq<string>>): seq<string>
    requires OrdersFit(schs, names, orders)
  {
    if names == [] then [] else
      var last := |names| - 1;
      Tables(d, schs, names[..last], orders[..last]) + TableOf(d, schs[names[last]], orders[last])
  }

  // ----- the generators -----

  /** driver_mysql.go:30-76, driver_postgres.go:30-74, driver_sqlite.go:30-68: the lines of one table. */
  method TableLines(d: Dialect, sch: Schema, order: seq<string>) returns (columns: seq<string>, primaryColumns: seq<string>)
    requires forall k :: k in order ==> k in sch.fields
    ensures var fs := Columns(d, sch.fields, order);
            columns == ColumnTexts(d, fs) && primaryColumns == KeyNames(d, fs)
  {
    columns, primaryColumns := [], [];
    for i := 0 to |order|
      invariant var fs := Columns(d, sch.fields, order[i..]);
                var all := Columns(d, sch.fields, order);
                && columns + ColumnTexts(d, fs) == ColumnTexts(d, all)
                && primaryColumns + KeyNames(d, fs) == KeyNames(d, all)
    {
      assert order[i..][0] == order[i] && order[i..][1..] == order[i + 1..];
      var field := sch.fields[order[i]];
      ghost var rest := Columns(d, sch.fields, order[i + 1..]);
      if !Typed(d, field) {
        assert [] + rest == rest;
        continue;
      }
      assert ([field] + rest)[1..] == rest;
      if field.isPrimary {
        var key := if d == SQLite then field.nativeName else Quoted(d, field.nativeName);
        Regroup(primaryColumns, [key], KeyNames(d, rest));
        primaryColumns := primaryColumns + [key];
      } else {
        assert [] + KeyNames(d, rest) == KeyNames(d, rest);
      }
      Regroup(columns, [ColumnText(d, field)], ColumnTexts(d, rest));
      columns := columns + [ColumnText(d, field)];
    }
  }

  /** driver_mysql.go:71-82, driver_postgres.go:69-80, driver_sqlite.go:65-74: a schema without columns is skipped. */
  method TableDdl(d: Dialect, sch: Schema, order: seq<string>) returns (more: seq<string>)
    requires forall k :: k in order ==> k in sch.fields
    ensures more == Terminated(TableOf(d, sch, order))
  {
    var columns, primaryColumns := TableLines(d, sch, order);
    if |columns| == 0 {
      return [];
    }
    columns := columns + KeyClause(d, primaryColumns);
    more := [TableText(d, sch.nativeName, columns) + ";"];
  }

  /** driver_mysql.go:22-85, driver_postgres.go:22-83, driver_sqlite.go:22-77, without comment lines. */
  method DriverGenDDL(d: Dialect, sortedNames: seq<string>, schs: map<string, Schema>)
    returns (ddl: string)
    requires forall i :: 0 <= i < |sortedNames| ==> sortedNames[i] in schs
    ensures exists orders :: OrdersFit(schs, sortedNames, orders) && ddl == Script(Tables(d, schs, sortedNames, orders))
  {
    var ddls: seq<string> := [];
    ghost var tables: seq<string> := [];
    ghost var orders: seq<seq<string>> := [];
    assert Terminated(tables) == [] && sortedNames[..0] == [];
    hide Terminated, TableOf, Enumerates;
    for i := 0 to |sortedNames|
      invariant OrdersFit(schs, sortedNames[..i], orders)
      invariant ddls == Terminated(tables) && tables == Tables(d, schs, sortedNames[..i], orders)
    {
      hide Tables;
      var sch := schs[sortedNames[i]];
      var order := Range(sch.fields);
      assert forall k :: k in order ==> k in sch.fields by { EnumeratesIn(order, sch.fields); }
      TablesStep(d, schs, sortedNames, i, orders, order);
      orders := orders + [order];
      var more := TableDdl(d, sch, order);
      TerminatedConcat(tables, TableOf(d, sch, order));
      tables := tables + TableOf(d, sch, order);
      ddls := ddls + more;
    }
    assert sortedNames[..|sortedNames|] == sortedNames;
    ddl := Join(ddls, "\n\n");
  }

  lemma EnumeratesIn<V>(order: seq<string>, m: map<string, V>)
    requires Enumerates(order, m)
    ensures forall k :: k in order ==> k in m
  {
  }

  lemma TablesStep(d: Dialect, schs: map<string, Schema>, names: seq<string>, i: nat, orders: seq<seq<string>>, order: seq<string>)
    requires i < |names| && names[i] in schs && OrdersFit(schs, names[..i], orders) && Enumerates(order, schs[names[i]].fields)
    ensures OrdersFit(schs, names[..i + 1], orders + [order])
    ensures Tables(d, schs, names[..i + 1], orders + [order])
            == Tables(d, schs, names[..i], orders) + TableOf(d, schs[names[i]], order)
  {
    hide Enumerates, TableOf;
    assert names[..i + 1][..i] == names[..i] && (orders + [order])[..i] == orders;
  }

  // ----- sort.Strings -----

  predicate Less(a: string, b: string) {
    b != "" && (a == "" || a[0] < b[0] || (a[0] == b[0] && Less(a[1..], b[1..])))
  }

  lemma {:induction false} LessOrder(a: string, b: string, c: string)
    ensures Less(a, b) && Less(b, c) ==> Less(a, c)
    ensures a == b || Less(a, b) || Less(b, a)
    ensures !Less(a, a)
  {
    if a != "" {
      LessOrder(a[1..], if b != "" then b[1..] else "", if c != "" then c[1..] else "");
      if b != "" && a[0] == b[0] && a[1..] == b[1..] { assert a == [a[0]] + a[1..] == b; }
    }
  }

  /** Where the texts part: the one ends there, or has the smaller character. */
  predicate PartsBelow(a: string, b: string, i: nat) {
    i <= |a| && i < |b| && a[..i] == b[..i] && (i == |a| || a[i] < b[i])
  }

  /** The byte order of strings: as in a dictionary of characters. */
  lemma {:induction false} LessExactly(a: string, b: string)
    ensures Less(a, b) <==> exists i: nat :: PartsBelow(a, b, i)
  {
    if a == "" {
      assert b != "" ==> PartsBelow(a, b, 0);
    } else if b != "" {
      LessExactly(a[1..], b[1..]);
      if a[0] < b[0] { assert PartsBelow(a, b, 0); }
      if i: nat :| a[0] == b[0] && PartsBelow(a[1..], b[1..], i) {
        assert a[..i + 1] == [a[0]] + a[1..][..i] && b[..i + 1] == [b[0]] + b[1..][..i];
        assert PartsBelow(a, b, i + 1);
      }
      if i: nat :| PartsBelow(a, b, i) && i > 0 {
        assert a[..i][0] == a[0] && b[..i][0] == b[0];
        assert a[1..][..i - 1] == a[..i][1..] && b[1..][..i - 1] == b[..i][1..];
        assert PartsBelow(a[1..], b[1..], i - 1);
      }
    }
  }

  predicate Sorted(names: seq<string>) { forall i, j :: 0 <= i < j < |names| ==> Less(names[i], names[j]) }

  /** A name put in its place in a sorted list. */
  method Insert(names: seq<string>, n: string) returns (r: seq<string>)
    requires Sorted(names) && n !in names
    ensures Sorted(r) && forall x :: x in r <==> x in names || x == n
  {
    var i := 0;
    while i < |names| && Less(names[i], n)
      invariant 0 <= i <= |names| && forall j :: 0 <= j < i ==> Less(names[j], n)
    {
      i := i + 1;
    }
    forall j | i <= j < |names| ensures Less(n, names[j]) {
      LessOrder(names[i], n, n);
      assert names[i] in names;
      LessOrder(n, names[i], names[j]);
    }
    r := names[..i] + [n] + names[i..];
    assert names == names[..i] + names[i..];
  }

  /** connection.go:64-68: the names of a map, sorted. */
  method SortedNames(schs: map<string, Schema>) returns (sortedNames: seq<string>)
    ensures Sorted(sortedNames) && forall n :: n in sortedNames <==> n in schs
  {
    var keys := Range(schs);
    sortedNames := [];
    for i := 0 to |keys|
      invariant Sorted(sortedNames) && forall n :: n in sortedNames <==> n in keys[..i]
    {
      assert keys[..i + 1] == keys[..i] + [keys[i]];
      sortedNames := Insert(sortedNames, keys[i]);
    }
    assert keys[..|keys|] == keys;
  }

  /** connection.go:63-70. */
  method GenDDL(d: Dialect, schs: map<string, Schema>) returns (ddl: string)
    ensures exists names, orders ::
              && Sorted(names) && (forall n :: n in names <==> n in schs)
              && OrdersFit(schs, names, orders) && ddl == Script(Tables(d, schs, names, orders))
  {
    var sortedNames := SortedNames(schs);
    forall i | 0 <= i < |sortedNames| ensures sortedNames[i] in schs { assert sortedNames[i] in sortedNames; }
    ddl := DriverGenDDL(d, sortedNames, schs);
  }

  // ----- tables are statements -----

  /** Free of semicolons, quotes, number signs and placeholders. */
  predicate Clean(w: string) { forall c :: c in w ==> !IsQuote(c) && c != ';' && c != '#' && c != '?' }

  predicate Neat(s: string) { Closed(s) && ';' !in s && '#' !in s && '?' !in s }

  predicate CleanSchema(sch: Schema) {
    Clean(sch.nativeName) && forall k :: k in sch.fields ==> CleanField(sch.fields[k])
  }

  lemma CleanIsNeat(w: string)
    requires Clean(w)
    ensures Neat(w)
  {
    ClosedPlain(w);
  }

  lemma CleanConcat(a: string, b: string)
    requires Clean(a) && Clean(b)
    ensures Clean(a + b)
  {
  }

  lemma NeatConcat(a: string, b: string)
    requires Neat(a) && Neat(b)
    ensures Neat(a + b)
  {
    ClosedConcat(a, b);
  }

  lemma NeatLiteral(w: string, q: char)
    requires Clean(w) && IsQuote(q)
    ensures Neat([q] + w + [q])
  {
    var s := [q] + w + [q];
    assert s[1..|s| - 1] == w;
    LiteralLenIs(s, |s|);
    assert s[|s|..] == "";
  }

  lemma NeatQuoted(d: Dialect, name: string)
    requires Clean(name)
    ensures Neat(Quoted(d, name))
  {
    if d == Postgres {
      NeatLiteral(name, '"');
    } else {
      CleanConcat("`", name);
      CleanConcat("`" + name, "`");
      CleanIsNeat("`" + name + "`");
    }
  }

  lemma CleanTrim(w: string)
    requires Clean(w)
    ensures Clean(TrimSpace(w))
  {
    CleanTrimLeft(w);
    assert forall c :: c in TrimSpace(w) ==> c in TrimLeft(w);
  }

  lemma {:induction false} CleanTrimLeft(w: string)
    requires Clean(w)
    ensures Clean(TrimLeft(w))
  {
    if w != "" && IsSpace(w[0]) {
      assert forall c :: c in w[1..] ==> c in w;
      CleanTrimLeft(w[1..]);
    }
  }

  predicate CleanField(f: Field) { Clean(f.nativeName) && Clean(f.nativeType) && Clean(f.title) }

  lemma CleanMySQLTypes()
    ensures Clean("TEXT") && Clean("BIGINT") && Clean("DOUBLE") && Clean("TINYINT(1)") && Clean("DATETIME(3)") && Clean("")
  {
  }

  lemma CleanPostgresTypes()
    ensures Clean("BIGSERIAL") && Clean("DOUBLE PRECISION") && Clean("BOOLEAN")
  {
  }

  lemma CleanLongType()
    ensures Clean("TIMESTAMP WITH TIME ZONE")
  {
  }

  lemma CleanSQLiteTypes()
    ensures Clean("INTEGER") && Clean("REAL") && Clean("DATETIME")
  {
  }

  lemma CleanDefault(d: Dialect, f: Field)
    ensures Clean(DefaultType(d, f))
  {
    hide Clean;
    CleanMySQLTypes();
    CleanPostgresTypes();
    CleanLongType();
    CleanSQLiteTypes();
  }

  lemma CleanType(d: Dialect, f: Field)
    requires Clean(f.nativeType)
    ensures Clean(ColumnType(d, f))
  {
    CleanTrim(f.nativeType);
    CleanDefault(d, f);
    hide Clean, DefaultType;
  }

  lemma CleanWords()
    ensures Clean("\t") && Clean(" UNSIGNED") && Clean(" NOT NULL") && Clean(" NULL") && Clean(" AUTO_INCREMENT") && Clean("")
  {
  }

  lemma CleanOptions(d: Dialect, f: Field)
    requires Clean(f.nativeType)
    ensures Neat("\t" + ColumnType(d, f)
      + (if d == MySQL && f.isUnsigned then " UNSIGNED" else "")
      + Nullness(d, f)
      + (if d == MySQL && f.isAutoIncrement then " AUTO_INCREMENT" else ""))
  {
    CleanWords();
    CleanType(d, f);
    hide Clean, Neat, ColumnType;
    var a := if d == MySQL && f.isUnsigned then " UNSIGNED" else "";
    var b := if d == MySQL && f.isAutoIncrement then " AUTO_INCREMENT" else "";
    var t := "\t" + ColumnType(d, f);
    CleanConcat("\t", ColumnType(d, f));
    CleanConcat(t, a);
    CleanConcat(t + a, Nullness(d, f));
    CleanConcat(t + a + Nullness(d, f), b);
    CleanIsNeat(t + a + Nullness(d, f) + b);
  }

  lemma NeatComment(d: Dialect, f: Field)
    requires Clean(f.title)
    ensures Neat(Comment(d, f))
  {
    if d != SQLite && f.title != "" {
      CleanIsNeat(" COMMENT ");
      NeatLiteral(f.title, '\'');
      NeatConcat(" COMMENT ", "'" + f.title + "'");
    } else {
      CleanIsNeat("");
    }
  }

  lemma NeatColumn(d: Dialect, f: Field)
    requires CleanField(f)
    ensures Neat(ColumnText(d, f))
  {
    hide Neat, Quoted, ColumnType, Nullness, Comment;
    NeatQuoted(d, f.nativeName);
    CleanOptions(d, f);
    NeatComment(d, f);
    var options := "\t" + ColumnType(d, f)
      + (if d == MySQL && f.isUnsigned then " UNSIGNED" else "")
      + Nullness(d, f)
      + (if d == MySQL && f.isAutoIncrement then " AUTO_INCREMENT" else "");
    NeatConcat(Quoted(d, f.nativeName), options);
    NeatConcat(Quoted(d, f.nativeName) + options, Comment(d, f));
  }

  predicate AllNeat(ss: seq<string>) { forall i :: 0 <= i < |ss| ==> Neat(ss[i]) }

  lemma {:induction false} NeatJoin(ss: seq<string>, sep: string)
    requires AllNeat(ss) && Clean(sep)
    ensures Neat(Join(ss, sep))
  {
    CleanIsNeat(sep);
    if |ss| == 0 {
      CleanIsNeat("");
    } else if |ss| > 1 {
      NeatJoin(ss[1..], sep);
      NeatConcat(ss[0], sep);
      NeatConcat(ss[0] + sep, Join(ss[1..], sep));
    }
  }

  predicate CleanFields(fs: seq<Field>) { forall i :: 0 <= i < |fs| ==> CleanField(fs[i]) }

  lemma {:induction false} NeatColumns(d: Dialect, fs: seq<Field>)
    requires CleanFields(fs)
    ensures AllNeat(ColumnTexts(d, fs)) && AllNeat(KeyNames(d, fs))
  {
    if fs != [] {
      NeatColumns(d, fs[1..]);
      NeatColumn(d, fs[0]);
      NeatQuoted(d, fs[0].nativeName);
      CleanIsNeat(fs[0].nativeName);
    }
  }

  lemma NeatAround(open: string, body: string, close: string)
    requires Clean(open) && Clean(close) && Neat(body)
    ensures Neat(open + body + close)
  {
    CleanIsNeat(open);
    CleanIsNeat(close);
    NeatConcat(open, body);
    NeatConcat(open + body, close);
  }

  lemma NeatKey(d: Dialect, key: seq<string>)
    requires AllNeat(key)
    ensures AllNeat(KeyClause(d, key))
  {
    NeatJoin(key, ",");
    assert Clean("PRIMARY KEY (") && Clean(")");
    hide Neat, Clean;
    NeatAround("PRIMARY KEY (", Join(key, ","), ")");
  }

  lemma TableIsStatement(d: Dialect, table: string, fs: seq<Field>)
    requires Clean(table) && CleanFields(fs)
    ensures Runs(CreateTable(d, table, fs))
  {
    TableIsNeat(d, table, fs);
    TableEnds(d, table, ColumnTexts(d, fs) + KeyClause(d, KeyNames(d, fs)));
    hide TableText, Closed;
  }

  lemma TableEnds(d: Dialect, table: string, lines: seq<string>)
    ensures var s := TableText(d, table, lines); s != "" && Trimmed(s)
  {
    var s := TableText(d, table, lines);
    assert s[0] == 'C' && s[|s| - 1] == ')';
  }

  lemma TableIsNeat(d: Dialect, table: string, fs: seq<Field>)
    requires Clean(table) && CleanFields(fs)
    ensures Neat(CreateTable(d, table, fs))
  {
    NeatColumns(d, fs);
    NeatKey(d, KeyNames(d, fs));
    hide Neat, Clean, ColumnTexts, KeyClause, KeyNames;
    NeatTable(d, table, ColumnTexts(d, fs) + KeyClause(d, KeyNames(d, fs)));
  }

  lemma HeadIsClean()
    ensures Clean("CREATE TABLE IF NOT EXISTS ")
  {
  }

  lemma NeatTable(d: Dialect, table: string, lines: seq<string>)
    requires Clean(table) && AllNeat(lines)
    ensures Neat(TableText(d, table, lines))
  {
    HeadIsClean();
    NeatJoin(lines, ",\n");
    NeatQuoted(d, table);
    var open, close := if d == Postgres then " (" else " (\n", if d == Postgres then ")" else "\n)";
    assert Clean(open) && Clean(close);
    var body := Join(lines, ",\n");
    hide Neat, Clean, Quoted, Join;
    NeatAround(open, body, close);
    var head := "CREATE TABLE IF NOT EXISTS ";
    CleanIsNeat(head);
    NeatConcat(head, Quoted(d, table));
    NeatConcat(head + Quoted(d, table), open + body + close);
  }

  // ----- main results -----

  /** A field becomes a column exactly when it has a type, its own or the driver's for its kind. */
  lemma {:induction false} ColumnsAreTypedFields(d: Dialect, fields: map<string, Field>, order: seq<string>, f: Field)
    requires forall k :: k in order ==> k in fields
    ensures f in Columns(d, fields, order) <==> exists k :: k in order && fields[k] == f && Typed(d, f)
  {
    if order != [] {
      ColumnsAreTypedFields(d, fields, order[1..], f);
      assert order == [order[0]] + order[1..];
    }
  }

  /** The key lists the primary columns and nothing else. */
  lemma {:induction false} KeyListsPrimaryColumns(d: Dialect, fs: seq<Field>, name: string)
    ensures name in KeyNames(d, fs) <==>
            exists f :: f in fs && f.isPrimary && name == if d == SQLite then f.nativeName else Quoted(d, f.nativeName)
  {
    if fs != [] {
      KeyListsPrimaryColumns(d, fs[1..], name);
      assert fs == [fs[0]] + fs[1..];
    }
  }

  lemma {:induction false} NoKeyNames(d: Dialect, fs: seq<Field>)
    ensures KeyNames(d, fs) == [] <==> forall f :: f in fs ==> !f.isPrimary
  {
    if fs != [] {
      NoKeyNames(d, fs[1..]);
      assert fs == [fs[0]] + fs[1..];
    }
  }

  /** A key clause with nothing in it, which SQLite does not accept, is written exactly by SQLite without primary columns. */
  lemma EmptyKeyExactlyWhen(d: Dialect, fs: seq<Field>)
    ensures KeyNames(d, fs) == [] && KeyClause(d, KeyNames(d, fs)) != []
            <==> d == SQLite && forall f :: f in fs ==> !f.isPrimary
    ensures KeyClause(SQLite, []) == ["PRIMARY KEY ()"]
  {
    NoKeyNames(d, fs);
    assert "PRIMARY KEY (" + "" + ")" == "PRIMARY KEY ()";
  }

  lemma {:induction false} CleanColumns(d: Dialect, sch: Schema, order: seq<string>)
    requires CleanSchema(sch) && forall k :: k in order ==> k in sch.fields
    ensures CleanFields(Columns(d, sch.fields, order))
  {
    if order != [] { CleanColumns(d, sch, order[1..]); }
  }

  /** A statement that takes no parameter. */
  predicate Runs(t: string) { Statement(t) && '?' !in t && ';' !in t }

  lemma OneTable(d: Dialect, sch: Schema, order: seq<string>)
    requires CleanSchema(sch) && forall k :: k in order ==> k in sch.fields
    ensures forall t :: t in TableOf(d, sch, order) ==> Runs(t)
  {
    CleanColumns(d, sch, order);
    var fs := Columns(d, sch.fields, order);
    TableIsStatement(d, sch.nativeName, fs);
    hide Columns, CreateTable;
  }

  lemma {:induction false} TablesAreStatements(d: Dialect, schs: map<string, Schema>, names: seq<string>, orders: seq<seq<string>>)
    requires OrdersFit(schs, names, orders) && forall n :: n in names ==> CleanSchema(schs[n])
    ensures forall t :: t in Tables(d, schs, names, orders) ==> Runs(t)
  {
    hide Runs, TableOf, CleanSchema;
    if names != [] {
      var last := |names| - 1;
      TablesAreStatements(d, schs, names[..last], orders[..last]);
      OneTable(d, schs[names[last]], orders[last]);
    }
  }

  /** The names whose schemas have a column. */
  function Live(d: Dialect, schs: map<string, Schema>, names: seq<string>): seq<string>
    requires forall n :: n in names ==> n in schs
  {
    if names == [] then [] else
      var last := |names| - 1;
      Live(d, schs, names[..last]) + if HasColumn(d, schs[names[last]]) then [names[last]] else []
  }

  predicate HasColumn(d: Dialect, sch: Schema) { exists k :: k in sch.fields && Typed(d, sch.fields[k]) }

  /** The table of a schema, for some order of its fields. */
  ghost predicate IsTableOf(d: Dialect, sch: Schema, table: string) {
    exists order :: Enumerates(order, sch.fields) && table == CreateTable(d, sch.nativeName, Columns(d, sch.fields, order))
  }

  lemma TableWhenColumn(d: Dialect, sch: Schema, order: seq<string>)
    requires Enumerates(order, sch.fields)
    ensures TableOf(d, sch, order) != [] <==> HasColumn(d, sch)
    ensures HasColumn(d, sch) ==> |TableOf(d, sch, order)| == 1 && IsTableOf(d, sch, TableOf(d, sch, order)[0])
  {
    var fs := Columns(d, sch.fields, order);
    if HasColumn(d, sch) {
      var k :| k in sch.fields && Typed(d, sch.fields[k]);
      ColumnsAreTypedFields(d, sch.fields, order, sch.fields[k]);
    } else if fs != [] {
      ColumnsAreTypedFields(d, sch.fields, order, fs[0]);
    }
  }

  lemma {:induction false} TablesOfLive(d: Dialect, schs: map<string, Schema>, names: seq<string>, orders: seq<seq<string>>)
    requires OrdersFit(schs, names, orders)
    ensures var tables, live := Tables(d, schs, names, orders), Live(d, schs, names);
            && |tables| == |live| && (forall i :: 0 <= i < |live| ==> live[i] in names)
            && forall i :: 0 <= i < |live| ==> IsTableOf(d, schs[live[i]], tables[i])
    ensures Sorted(names) ==> Sorted(Live(d, schs, names))
  {
    hide TableOf, HasColumn, IsTableOf, Less;
    if names != [] {
      var last := |names| - 1;
      TablesOfLive(d, schs, names[..last], orders[..last]);
      TableWhenColumn(d, schs[names[last]], orders[last]);
      var before := Live(d, schs, names[..last]);
      forall i | 0 <= i < |before| ensures Sorted(names) ==> Less(before[i], names[last]) {
        var j :| 0 <= j < last && names[j] == before[i];
      }
    }
  }

  /**
   The text GenDDL writes runs as exactly one statement for each schema that has a typed column, in the sorted order
   of their names: the CREATE TABLE of that schema. It takes no parameter, for names, types and titles free of
   semicolons, quotes, number signs and placeholders.
   */
  lemma GeneratedStatements(d: Dialect, schs: map<string, Schema>, names: seq<string>, orders: seq<seq<string>>)
    requires OrdersFit(schs, names, orders) && Sorted(names) && forall n :: n in names ==> CleanSchema(schs[n])
    ensures var stmts, live := StatementsOf(Script(Tables(d, schs, names, orders))), Live(d, schs, names);
            && |stmts| == |live| && Sorted(live)
            && (forall n :: n in live <==> n in names && HasColumn(d, schs[n]))
            && (forall i :: 0 <= i < |live| ==> exists table :: IsTableOf(d, schs[live[i]], table) && stmts[i] == Normalised(table))
            && |Deal(stmts, [], 0)| == |stmts|
  {
    hide StatementsOf, Script, Tables, Live, HasColumn, Normalised, NormalisedAll, IsTableOf, Sorted, Runs,
         AllStatements, NoSemicolons, Deal, CleanSchema;
    var tables := Tables(d, schs, names, orders);
    TablesAreStatements(d, schs, names, orders);
    TablesOfLive(d, schs, names, orders);
    LiveAre(d, schs, names);
    RunsAreStatements(tables);
    ScriptStatementsExactlyWhen(tables);
    forall i | 0 <= i < |tables| ensures NormalisedAll(tables)[i] == Normalised(tables[i]) { NormalisedAt(tables, i); }
    NoParameters(tables);
    AllDealt(NormalisedAll(tables), []);
  }

  lemma RunsAreStatements(tables: seq<string>)
    requires forall t :: t in tables ==> Runs(t)
    ensures AllStatements(tables) && NoSemicolons(tables) && forall t :: t in tables ==> '?' !in t
  {
  }

  lemma {:induction false} NormalisedAt(ss: seq<string>, i: nat)
    requires i < |ss|
    ensures NormalisedAll(ss)[i] == Normalised(ss[i])
  {
    if i > 0 { NormalisedAt(ss[1..], i - 1); }
  }

  lemma {:induction false} LiveAre(d: Dialect, schs: map<string, Schema>, names: seq<string>)
    requires forall n :: n in names ==> n in schs
    ensures forall n :: n in Live(d, schs, names) <==> n in names && HasColumn(d, schs[n])
  {
    hide HasColumn;
    if names != [] {
      var last := |names| - 1;
      LiveAre(d, schs, names[..last]);
      assert names == names[..last] + [names[last]];
    }
  }

  lemma {:induction false} NoParameters(ss: seq<string>)
    requires forall s :: s in ss ==> '?' !in s
    ensures Need(NormalisedAll(ss)) == 0
  {
    if ss != [] {
      assert ss[0] in ss;
      ScanKeepsChar(ss[0], '?');
      TrimLeftKeepsCount(Scan(ss[0]), '?');
      TrimRightKeepsCount(TrimLeft(Scan(ss[0])), '?');
      NoneCounted(Scan(ss[0]), '?');
      NoParameters(ss[1..]);
    }
  }
}
