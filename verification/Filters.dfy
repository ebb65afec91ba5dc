/** filter.go: filter trees, their three-valued meaning, and how conditions become filters. */
module Filters {
  import opened Strings
  import opened Schemas

  /** An argument value: nil, a bool, a string, or anything else together with what %v prints for it. */
  datatype Value = Nil | Flag(b: bool) | Str(s: string) | Datum(id: int, shown: string)

  function Show(v: Value): string {
    match v
    case Nil => "<nil>"
    case Flag(b) => if b then "true" else "false"
    case Str(s) => s
    case Datum(_, shown) => shown
  }

  datatype Operator = AndOp | OrOp

  datatype Entry = Entry(key: string, op: string, value: Value)

  /** *Filter, which may be nil. */
  datatype Filter =
    | NilFilter
    | Group(operator: Operator, filters: seq<Filter>)
    | Entries(operator: Operator, entries: seq<Entry>)

  // ----- meaning -----

  datatype Truth = False | Unknown | True

  /** The tests a condition can make on a column. */
  datatype Cmp = Eq | Ne | Like | Gt | Ge | Lt | Le | In | NotIn | IsNull | NotNull | NotBlank

  /** How one row answers the tests: any function at all. */
  type Row = (string, Cmp, Value) -> Truth

  function And3(a: Truth, b: Truth): Truth {
    if a == False || b == False then False else if a == Unknown || b == Unknown then Unknown else True
  }

  function Or3(a: Truth, b: Truth): Truth {
    if a == True || b == True then True else if a == Unknown || b == Unknown then Unknown else False
  }

  /** Conjunction and disjunction of several conditions, in no order. */
  function Combined(op: Operator, vs: seq<Truth>): Truth {
    match op
    case AndOp => if False in vs then False else if Unknown in vs then Unknown else True
    case OrOp => if True in vs then True else if Unknown in vs then Unknown else False
  }

  /** What one entry asks of the row. `$EXISTS false` on a string field tests `<> ''`, as the code does. */
  function EntryMeaning(sch: Schema, e: Entry, row: Row): Truth {
    var named := e.key in sch.fields && sch.fields[e.key].typ != "" && sch.fields[e.key].nativeName != "";
    var col := if named then sch.fields[e.key].nativeName else e.key;
    if e.op == "!=" then row(col, Ne, e.value)
    else if e.op == "$LIKE" then row(col, Like, Str("%" + Show(e.value) + "%"))
    else if e.op == "$PREFIX" then row(col, Like, Str(Show(e.value) + "%"))
    else if e.op == "$SUFFIX" then row(col, Like, Str("%" + Show(e.value)))
    else if e.op == ">" then row(col, Gt, e.value)
    else if e.op == ">=" then row(col, Ge, e.value)
    else if e.op == "<" then row(col, Lt, e.value)
    else if e.op == "<=" then row(col, Le, e.value)
    else if e.op == "$IN" then row(col, In, e.value)
    else if e.op == "$NIN" then row(col, NotIn, e.value)
    else if e.op == "$EXISTS" then
      match (e.value != Flag(false), e.key in sch.fields && sch.fields[e.key].typ == "string")
      case (true, true) => And3(row(col, NotNull, Nil), row(col, NotBlank, Nil))
      case (true, false) => row(col, NotNull, Nil)
      case (false, true) => Or3(row(col, IsNull, Nil), row(col, NotBlank, Nil))
      case (false, false) => row(col, IsNull, Nil)
    else row(col, Eq, e.value)
  }

  function EntryMeanings(sch: Schema, es: seq<Entry>, row: Row): (vs: seq<Truth>)
    ensures |vs| == |es|
  {
    if es == [] then [] else [EntryMeaning(sch, es[0], row)] + EntryMeanings(sch, es[1..], row)
  }

  /** A filter says nothing (None) when it is nil or nothing in it says anything. */
  function Meaning(sch: Schema, f: Filter, row: Row): Option<Truth>
    decreases f, 0
  {
    match f
    case NilFilter => None
    case Group(op, fs) => ListMeaning(sch, op, fs, row)
    case Entries(op, es) => if es == [] then None else Some(Combined(op, EntryMeanings(sch, es, row)))
  }

  /** The answers of the filters that say something. */
  function Answers(sch: Schema, fs: seq<Filter>, row: Row): seq<Truth>
    decreases fs, 0
  {
    if fs == [] then [] else
      var rest := Answers(sch, fs[1..], row);
      match Meaning(sch, fs[0], row)
      case None => rest
      case Some(t) => [t] + rest
  }

  function ListMeaning(sch: Schema, op: Operator, fs: seq<Filter>, row: Row): Option<Truth>
    decreases fs, 1
  {
    var vs := Answers(sch, fs, row);
    if vs == [] then None else Some(Combined(op, vs))
  }
}
