/** model.go, parseWhere: a filter list becomes one parenthesised SQL condition and its argument list. */
module Where {
  import opened Strings
  import opened Schemas
  import opened Filters

  /** The shape of the text: every piece but a bare predicate is one parenthesised group. */
  datatype Doc = Bare(col: string, cmp: Cmp, arg: Value) | Paren(op: Operator, docs: seq<Doc>)

  function CmpText(cmp: Cmp): string {
    match cmp
    case Eq => " = ?"
    case Ne => " <> ?"
    case Like => " LIKE ?"
    case Gt => " > ?"
    case Ge => " >= ?"
    case Lt => " < ?"
    case Le => " <= ?"
    case In => " IN ?"
    case NotIn => " NOT IN ?"
    case IsNull => " IS NULL"
    case NotNull => " IS NOT NULL"
    case NotBlank => " <> ''"
  }

  function Separator(op: Operator): string { if op == OrOp then " OR " else " AND " }

  function Text(d: Doc): string {
    match d
    case Bare(col, cmp, _) => col + CmpText(cmp)
    case Paren(op, ds) => "(" + Join(Texts(ds), Separator(op)) + ")"
  }

  function Texts(ds: seq<Doc>): (r: seq<string>)
    ensures |r| == |ds|
  {
    if ds == [] then [] else [Text(ds[0])] + Texts(ds[1..])
  }

  predicate TakesArg(cmp: Cmp) { cmp != IsNull && cmp != NotNull && cmp != NotBlank }

  function Args(d: Doc): seq<Value> {
    match d
    case Bare(_, cmp, arg) => if TakesArg(cmp) then [arg] else []
    case Paren(_, ds) => AllArgs(ds)
  }

  function AllArgs(ds: seq<Doc>): seq<Value> {
    if ds == [] then [] else Args(ds[0]) + AllArgs(ds[1..])
  }

  // ----- what parseWhere builds -----

  /** `$EXISTS v` asks for absence only when v is the bool false. */
  predicate AsksExists(v: Value) { v != Flag(false) }

  function EntryDoc(sch: Schema, e: Entry): Doc {
    var col := Column(sch, e.key);
    if e.op == "!=" then Paren(AndOp, [Bare(col, Ne, e.value)])
    else if e.op == "$LIKE" then Paren(AndOp, [Bare(col, Like, Str("%" + Show(e.value) + "%"))])
    else if e.op == "$PREFIX" then Paren(AndOp, [Bare(col, Like, Str(Show(e.value) + "%"))])
    else if e.op == "$SUFFIX" then Paren(AndOp, [Bare(col, Like, Str("%" + Show(e.value)))])
    else if e.op == ">" then Paren(AndOp, [Bare(col, Gt, e.value)])
    else if e.op == ">=" then Paren(AndOp, [Bare(col, Ge, e.value)])
    else if e.op == "<" then Paren(AndOp, [Bare(col, Lt, e.value)])
    else if e.op == "<=" then Paren(AndOp, [Bare(col, Le, e.value)])
    else if e.op == "$IN" then Paren(AndOp, [Bare(col, In, e.value)])
    else if e.op == "$NIN" then Paren(AndOp, [Bare(col, NotIn, e.value)])
    else if e.op == "$EXISTS" then
      if AsksExists(e.value) then
        Paren(AndOp, [Bare(col, NotNull, Nil)] + if IsStringField(sch, e.key) then [Bare(col, NotBlank, Nil)] else [])
      else
        Paren(OrOp, [Bare(col, IsNull, Nil)] + if IsStringField(sch, e.key) then [Bare(col, NotBlank, Nil)] else [])
    else Paren(AndOp, [Bare(col, Eq, e.value)])
  }

  function EntryDocs(sch: Schema, es: seq<Entry>): (ds: seq<Doc>)
    ensures |ds| == |es|
  {
    if es == [] then [] else [EntryDoc(sch, es[0])] + EntryDocs(sch, es[1..])
  }

  function Fold(op: Operator, ds: seq<Doc>): Option<Doc> {
    if |ds| == 0 then None else if |ds| == 1 then Some(ds[0]) else Some(Paren(op, ds))
  }

  function ItemDoc(sch: Schema, f: Filter): Option<Doc>
    decreases f, 0
  {
    match f
    case NilFilter => None
    case Group(op, fs) => ListDoc(sch, op, fs)
    case Entries(op, es) => Fold(op, EntryDocs(sch, es))
  }

  /** The clauses of the filters that leave one. */
  function LiveDocs(sch: Schema, fs: seq<Filter>): seq<Doc>
    decreases fs, 0
  {
    if fs == [] then [] else
      match ItemDoc(sch, fs[0])
      case None => LiveDocs(sch, fs[1..])
      case Some(d) => [d] + LiveDocs(sch, fs[1..])
  }

  function ListDoc(sch: Schema, op: Operator, fs: seq<Filter>): Option<Doc>
    decreases fs, 1
  {
    Fold(op, LiveDocs(sch, fs))
  }

  function MaybeText(d: Option<Doc>): string { if d.Some? then Text(d.value) else "" }

  function MaybeArgs(d: Option<Doc>): seq<Value> { if d.Some? then Args(d.value) else [] }

  lemma JoinTwo(a: string, b: string, sep: string)
    ensures Join([a, b], sep) == a + sep + b
  {
    assert [a, b][1..] == [b];
  }

  lemma SmallGroup(d: Doc)
    requires d.Paren? && 1 <= |d.docs| <= 2
    ensures |d.docs| == 1 ==> Text(d) == "(" + Text(d.docs[0]) + ")" && Args(d) == Args(d.docs[0])
    ensures |d.docs| == 2 ==>
              && Text(d) == "(" + (Text(d.docs[0]) + Separator(d.op) + Text(d.docs[1])) + ")"
              && Args(d) == Args(d.docs[0]) + Args(d.docs[1])
  {
    var ds := d.docs;
    if |ds| == 1 {
      assert ds[1..] == [] && AllArgs(ds[1..]) == [];
      assert Texts(ds) == [Text(ds[0])];
    } else {
      var tail := ds[1..];
      assert tail[1..] == [] && AllArgs(tail[1..]) == [] && Texts(tail) == [Text(ds[1])];
      assert Texts(ds) == [Text(ds[0]), Text(ds[1])];
      assert AllArgs(tail) == Args(ds[1]) + [] == Args(ds[1]);
      JoinTwo(Text(ds[0]), Text(ds[1]), Separator(d.op));
    }
  }

  // ----- the loops -----

  /** model.go:448-512, one turn of the entry loop. */
  method EntryClause(sch: Schema, entry: Entry) returns (sql: string, attrs: seq<Value>)
    ensures sql == Text(EntryDoc(sch, entry)) && attrs == Args(EntryDoc(sch, entry))
  {
    var key := Column(sch, entry.key);
    var v := entry.value;
    ghost var d := EntryDoc(sch, entry);
    SmallGroup(d);
    match entry.op {
      case "=" => sql, attrs := "(" + (key + " = ?") + ")", [v];
      case "!=" => sql, attrs := "(" + (key + " <> ?") + ")", [v];
      case "$LIKE" => sql, attrs := "(" + (key + " LIKE ?") + ")", [Str("%" + Show(v) + "%")];
      case "$PREFIX" => sql, attrs := "(" + (key + " LIKE ?") + ")", [Str(Show(v) + "%")];
      case "$SUFFIX" => sql, attrs := "(" + (key + " LIKE ?") + ")", [Str("%" + Show(v))];
      case ">" => sql, attrs := "(" + (key + " > ?") + ")", [v];
      case ">=" => sql, attrs := "(" + (key + " >= ?") + ")", [v];
      case "<" => sql, attrs := "(" + (key + " < ?") + ")", [v];
      case "<=" => sql, attrs := "(" + (key + " <= ?") + ")", [v];
      case "$IN" => sql, attrs := "(" + (key + " IN ?") + ")", [v];
      case "$NIN" => sql, attrs := "(" + (key + " NOT IN ?") + ")", [v];
      case "$EXISTS" =>
        attrs := [];
        var isExists := if v.Flag? then v.b else true;
        var isString := IsStringField(sch, entry.key);
        if isExists {
          if isString {
            sql := "(" + (key + " IS NOT NULL" + " AND " + (key + " <> ''")) + ")";
          } else {
            sql := "(" + (key + " IS NOT NULL") + ")";
          }
        } else {
          if isString {
            sql := "(" + (key + " IS NULL" + " OR " + (key + " <> ''")) + ")";
          } else {
            sql := "(" + (key + " IS NULL") + ")";
          }
        }
      case _ => sql, attrs := "(" + (key + " = ?") + ")", [v];
    }
  }

  /** model.go:435-529: the clause of one filter, if it has one. */
  method ItemClause(sch: Schema, item: Filter) returns (live: bool, clause: string, subAttrs: seq<Value>)
    ensures live <==> ItemDoc(sch, item).Some?
    ensures live ==> clause == Text(ItemDoc(sch, item).value) && subAttrs == Args(ItemDoc(sch, item).value)
    decreases item, 0
  {
    clause, subAttrs := "", [];
    match item {
      case NilFilter =>
        live := false;
      case Group(op, subFilterList) =>
        clause, subAttrs := SetItem(sch, op, subFilterList);
        ghost var d := ListDoc(sch, op, subFilterList);
        if d.Some? { TextNonempty(d.value); }
        live := clause != "";
      case Entries(op, entryList) =>
        var subSQLs;
        subSQLs, subAttrs := SetEntries(sch, entryList);
        live := |subSQLs| > 0;
        clause := Join(subSQLs, Separator(op));
        if |subSQLs| > 1 {
          clause := "(" + clause + ")";
        }
        FoldText(op, EntryDocs(sch, entryList));
    }
  }

  /** model.go:426-543: the recursive closure, one clause per filter that says something. */
  method SetItem(sch: Schema, sfo: Operator, sfs: seq<Filter>) returns (s: string, attrs: seq<Value>)
    ensures s == MaybeText(ListDoc(sch, sfo, sfs)) && attrs == MaybeArgs(ListDoc(sch, sfo, sfs))
    decreases sfs, 1
  {
    var clauses: seq<string> := [];
    attrs := [];
    ghost var done: seq<Doc> := [];
    for i := 0 to |sfs|
      invariant done + LiveDocs(sch, sfs[i..]) == LiveDocs(sch, sfs)
      invariant clauses == Texts(done) && attrs == AllArgs(done)
    {
      var item := sfs[i];
      assert sfs[i..][0] == item && sfs[i..][1..] == sfs[i + 1..];
      var live, clause, subAttrs := ItemClause(sch, item);
      if live {
        clauses := clauses + [clause];
        attrs := attrs + subAttrs;
        ghost var d := ItemDoc(sch, item).value;
        AppendDoc(done, d);
        Regroup(done, [d], LiveDocs(sch, sfs[i + 1..]));
        done := done + [d];
      }
    }
    assert done == LiveDocs(sch, sfs);
    s := Join(clauses, Separator(sfo));
    if |clauses| > 1 {
      s := "(" + s + ")";
    }
    FoldText(sfo, done);
  }

  /** model.go:448-512: the entries of one filter. */
  method SetEntries(sch: Schema, entryList: seq<Entry>) returns (subSQLs: seq<string>, subAttrs: seq<Value>)
    ensures subSQLs == Texts(EntryDocs(sch, entryList)) && subAttrs == AllArgs(EntryDocs(sch, entryList))
  {
    subSQLs, subAttrs := [], [];
    for i := 0 to |entryList|
      invariant subSQLs + Texts(EntryDocs(sch, entryList[i..])) == Texts(EntryDocs(sch, entryList))
      invariant subAttrs + AllArgs(EntryDocs(sch, entryList[i..])) == AllArgs(EntryDocs(sch, entryList))
    {
      assert entryList[i..][0] == entryList[i] && entryList[i..][1..] == entryList[i + 1..];
      var sql, attrs := EntryClause(sch, entryList[i]);
      ghost var rest := EntryDocs(sch, entryList[i + 1..]);
      Regroup(subSQLs, [sql], Texts(rest));
      Regroup(subAttrs, attrs, AllArgs(rest));
      subSQLs, subAttrs := subSQLs + [sql], subAttrs + attrs;
    }
  }

  /** model.go:423-547. */
  method ParseWhere(sch: Schema, filters: seq<Filter>) returns (clause: string, attrs: seq<Value>)
    ensures clause == MaybeText(ListDoc(sch, AndOp, filters)) && attrs == MaybeArgs(ListDoc(sch, AndOp, filters))
  {
    if |filters| > 0 {
      clause, attrs := SetItem(sch, AndOp, filters);
    } else {
      clause, attrs := "", [];
    }
  }

  lemma TextNonempty(d: Doc)
    ensures Text(d) != ""
  {
    match d {
      case Bare(col, cmp, _) => assert |CmpText(cmp)| > 0;
      case Paren(_, _) =>
    }
  }

  lemma {:induction false} AppendDoc(ds: seq<Doc>, d: Doc)
    ensures Texts(ds + [d]) == Texts(ds) + [Text(d)]
    ensures AllArgs(ds + [d]) == AllArgs(ds) + Args(d)
  {
    hide Text, Args;
    if ds == [] {
      assert [] + [d] == [d] && [d][1..] == [];
      assert Args(d) + [] == Args(d);
    } else {
      assert (ds + [d])[1..] == ds[1..] + [d] && (ds + [d])[0] == ds[0];
      AppendDoc(ds[1..], d);
      Regroup([Text(ds[0])], Texts(ds[1..]), [Text(d)]);
      Regroup(Args(ds[0]), AllArgs(ds[1..]), Args(d));
    }
  }

  lemma FoldText(op: Operator, ds: seq<Doc>)
    ensures var d := Fold(op, ds);
            var s := Join(Texts(ds), Separator(op));
            && MaybeText(d) == (if |ds| > 1 then "(" + s + ")" else s)
            && MaybeArgs(d) == AllArgs(ds)
  {
    if |ds| == 1 { assert ds == [ds[0]] && AllArgs(ds[1..]) == []; }
  }
}
