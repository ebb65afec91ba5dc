/** model.go, insertBatchWithTx: placeholders, arguments and conflict values of an INSERT. */
module Inserts {
  import opened Strings
  import opened Maps
  import opened Schemas
  import opened Filters
  import Creation

  // ----- placeholders and arguments -----

  /** model.go:200-207: one parenthesised list of question marks for each row. */
  function RowMarks(n: nat): string { "(" + Join(Marks(n), ",") + ")" }

  function Marks(n: nat): (r: seq<string>)
    ensures |r| == n
  {
    if n == 0 then [] else ["?"] + Marks(n - 1)
  }

  function AllRowMarks<T>(vars: seq<seq<T>>): (r: seq<string>)
    ensures |r| == |vars|
  {
    if vars == [] then [] else [RowMarks(|vars[0]|)] + AllRowMarks(vars[1..])
  }

  /** With rows of equal width, argument i*cols+j is cell j of row i. */
  lemma {:induction false} InsertArgumentAt<T>(vars: seq<seq<T>>, cols: nat, i: nat, j: nat)
    requires (forall k :: 0 <= k < |vars| ==> |vars[k]| == cols) && i < |vars| && j < cols
    ensures i * cols + j < |Creation.Flatten(vars)|
    ensures Creation.Flatten(vars)[i * cols + j] == vars[i][j]
  {
    if i > 0 {
      InsertArgumentAt(vars[1..], cols, i - 1, j);
      assert i * cols + j == cols + ((i - 1) * cols + j);
    }
  }

  /** Argument i*cols+j of an INSERT is the value row i has in the field whose native name is column j. */
  lemma InsertArgumentIsField(sch: Schema, docs: seq<Creation.Doc>, columns: seq<string>, native: map<string, Field>,
                              i: nat, j: nat, key: string)
    requires forall c :: c in columns ==> c in native
    requires forall c :: c in native ==> native[c].nativeName == c && native[c] in sch.fields.Values
    requires forall k, k' :: k in sch.fields && k' in sch.fields && sch.fields[k].nativeName == sch.fields[k'].nativeName ==> k == k'
    requires i < |docs| && j < |columns| && key in sch.fields && sch.fields[key].nativeName == columns[j]
    ensures var args, name := Creation.Flatten(Creation.AllVars(docs, columns, native)), sch.fields[key].name;
            && i * |columns| + j < |args|
            && args[i * |columns| + j] == if name in docs[i] then docs[i][name] else Creation.Empty
  {
    var vars := Creation.AllVars(docs, columns, native);
    InsertArgumentAt(vars, |columns|, i, j);
    assert columns[j] in columns;
    var k :| k in sch.fields && sch.fields[k] == native[columns[j]];
    assert k == key;
  }

  /** Every row with the conflict values behind it, as the loop at model.go:242-245 leaves them. */
  function Appended<T>(vars: seq<seq<T>>, more: seq<T>): (r: seq<seq<T>>)
    ensures |r| == |vars|
  {
    if vars == [] then [] else [vars[0] + more] + Appended(vars[1..], more)
  }

  /** model.go:199-259: the row placeholders and the arguments, conflict values included. */
  method InsertArguments<T>(vars: seq<seq<T>>, conflictUpdateValues: seq<T>) returns (rows: string, args: seq<T>)
    ensures rows == Join(AllRowMarks(vars), ", ")
    ensures args == Creation.Flatten(Appended(vars, conflictUpdateValues))
  {
    var placeholders: seq<string> := [];
    assert vars[0..] == vars;
    for i := 0 to |vars|
      invariant placeholders + AllRowMarks(vars[i..]) == AllRowMarks(vars)
    {
      assert vars[i..][0] == vars[i] && vars[i..][1..] == vars[i + 1..];
      Regroup(placeholders, [RowMarks(|vars[i]|)], AllRowMarks(vars[i + 1..]));
      placeholders := placeholders + [RowMarks(|vars[i]|)];
    }
    assert placeholders + [] == placeholders;
    rows := Join(placeholders, ", ");
    args := RowArguments(vars, conflictUpdateValues);
  }

  /** model.go:241-259. */
  method RowArguments<T>(vars: seq<seq<T>>, conflictUpdateValues: seq<T>) returns (args: seq<T>)
    ensures args == Creation.Flatten(Appended(vars, conflictUpdateValues))
  {
    args := [];
    assert vars[0..] == vars;
    for i := 0 to |vars|
      invariant args + Creation.Flatten(Appended(vars[i..], conflictUpdateValues))
             == Creation.Flatten(Appended(vars, conflictUpdateValues))
    {
      AppendedStep(vars[i..], conflictUpdateValues);
      assert vars[i..][1..] == vars[i + 1..];
      var items := vars[i] + conflictUpdateValues;
      Regroup(args, items, Creation.Flatten(Appended(vars[i + 1..], conflictUpdateValues)));
      args := args + items;
    }
  }

  lemma AppendedStep<T>(vars: seq<seq<T>>, more: seq<T>)
    requires vars != []
    ensures Creation.Flatten(Appended(vars, more))
         == (vars[0] + more) + Creation.Flatten(Appended(vars[1..], more))
  {
    assert Appended(vars, more)[1..] == Appended(vars[1..], more);
  }

  lemma {:induction false} AppendedLength<T>(vars: seq<seq<T>>, more: seq<T>)
    ensures |Creation.Flatten(Appended(vars, more))| == |Creation.Flatten(vars)| + |vars| * |more|
  {
    if vars != [] {
      AppendedLength(vars[1..], more);
      assert Appended(vars, more)[1..] == Appended(vars[1..], more);
      assert |vars| * |more| == |more| + |vars[1..]| * |more|;
    }
  }

  lemma {:induction false} AppendNothing<T>(vars: seq<seq<T>>, more: seq<T>)
    requires more == []
    ensures Appended(vars, more) == vars
    ensures Creation.Flatten(vars) + more == Creation.Flatten(vars)
  {
    if vars != [] {
      AppendNothing(vars[1..], more);
      assert vars[0] + more == vars[0];
      assert vars == [vars[0]] + vars[1..];
    }
  }

  // ----- conflict values -----

  /** A conflict value, as IsNil at model.go:230 meets it: it panics on anything but maps, slices and the like. */
  datatype ConflictValue = NilCollection | Collection(v: Value) | Other

  function ConflictText(column: string, v: ConflictValue): string {
    column + " = " + if v.NilCollection? then "VALUES(" + column + ")" else "?"
  }

  function ConflictTexts(columns: map<string, ConflictValue>, order: seq<string>): (r: seq<string>)
    requires forall k :: k in order ==> k in columns
    ensures |r| == |order|
  {
    if order == [] then [] else [ConflictText(order[0], columns[order[0]])] + ConflictTexts(columns, order[1..])
  }

  function ConflictArg(v: ConflictValue): seq<Value> { if v.Collection? then [v.v] else [] }

  function ConflictArgs(columns: map<string, ConflictValue>, order: seq<string>): seq<Value>
    requires forall k :: k in order ==> k in columns
  {
    if order == [] then [] else ConflictArg(columns[order[0]]) + ConflictArgs(columns, order[1..])
  }

  /** model.go:221-240: columns and values for some order of the map; a value of any other kind panics. */
  method ConflictUpdates(columns: map<string, ConflictValue>) returns (ok: bool, texts: seq<string>, values: seq<Value>)
    ensures ok <==> Other !in columns.Values
    ensures ok ==> exists order :: Enumerates(order, columns) &&
                     texts == ConflictTexts(columns, order) && values == ConflictArgs(columns, order)
  {
    var order := Range(columns);
    ok, texts, values := true, [], [];
    assert order[0..] == order;
    for i := 0 to |order|
      invariant texts + ConflictTexts(columns, order[i..]) == ConflictTexts(columns, order)
      invariant values + ConflictArgs(columns, order[i..]) == ConflictArgs(columns, order)
      invariant forall j :: 0 <= j < i ==> columns[order[j]] != Other
    {
      assert order[i..][0] == order[i] && order[i..][1..] == order[i + 1..];
      var k, v := order[i], columns[order[i]];
      if v == Other {
        assert v in columns.Values;
        return false, [], [];
      }
      Regroup(texts, [ConflictText(k, v)], ConflictTexts(columns, order[i + 1..]));
      Regroup(values, ConflictArg(v), ConflictArgs(columns, order[i + 1..]));
      texts := texts + [ConflictText(k, v)];
      values := values + ConflictArg(v);
    }
    assert texts + [] == texts && values + [] == values;
    forall v | v in columns.Values ensures v != Other {
      var k :| k in columns && columns[k] == v;
      assert k in order;
    }
  }
}
