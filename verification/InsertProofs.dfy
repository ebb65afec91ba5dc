/** The final text of an INSERT, read as SQL with its arguments, inserts the rows it was built from. */
module InsertProofs {
  import opened Strings
  import opened Maps
  import opened Schemas
  import opened Filters
  import opened SqlText
  import opened Tokens
  import opened SqlCondition
  import opened SqlStatement
  import opened WhereProofs
  import opened NameLists
  import opened Inserts
  import Creation

  // ----- the text -----

  /** The last lines of the three templates. ConflictColumns, which they ask for as a target, is never set. */
  function ConflictTail(dialect: Dialect, ignore: bool, texts: seq<string>): string {
    if texts != [] then
      if dialect == MySQL
      then BREAK + "ON" + " " + ("DUPLICATE" + " " + ("KEY" + " " + ("UPDATE" + " " + (Join(texts, ", ") + BREAK))))
      else BREAK + "ON" + " " + ("CONFLICT" + "  " + ("DO" + " " + ("UPDATE" + (" " + BREAK)
             + ("SET" + " " + (Join(texts, ", ") + BREAK)))))
    else if dialect == Postgres && ignore then BREAK + "ON" + " " + ("CONFLICT" + "  " + ("DO" + " " + ("NOTHING" + BREAK)))
    else ""
  }

  function IgnoreText(dialect: Dialect, ignore: bool): string {
    if !ignore then ""
    else
      match dialect
      case MySQL => "IGNORE" + " "
      case SQLite => "OR" + " " + ("IGNORE" + " ")
      case Postgres => ""
  }

  /** driver_mysql.go:95-100, driver_postgres.go:86-94, driver_sqlite.go:80-86. */
  function InsertText(dialect: Dialect, ignore: bool, table: string, columns: seq<string>, rows: string, conflicts: seq<string>): string {
    "INSERT" + " " + (IgnoreText(dialect, ignore) + ("INTO" + " " + (table + (" " + ("(" + (Join(columns, ", ")
      + (")" + (BREAK + "VALUES" + BREAK + (rows + (BREAK + ConflictTail(dialect, ignore, conflicts)))))))))))
  }

  /** model.go:40-43: what to do about rows that are already there. */
  datatype ConflictOptions = ConflictOptions(kind: string, columns: map<string, ConflictValue>)

  /**
   model.go:199-261: the final text for a batch, or the panic on a conflict value. No kind stands for IGNORE, and only
   the kind UPDATE looks at the columns.
   */
  method InsertStatement(dialect: Dialect, table: string, columns: seq<string>, vars: seq<seq<Value>>, opts: Option<ConflictOptions>)
    returns (ok: bool, sql: string, args: seq<Value>)
    ensures ok <==> !(opts.Some? && opts.value.kind == "UPDATE" && Other in opts.value.columns.Values)
    ensures ok && opts.Some? && opts.value.kind == "UPDATE" ==>
              exists order :: Enumerates(order, opts.value.columns)
                              && WrittenInsert(dialect, false, table, columns, vars, opts.value.columns, order, sql, args)
    ensures opts.Some? && (opts.value.kind == "" || opts.value.kind == "IGNORE") ==>
              WrittenInsert(dialect, true, table, columns, vars, map[], [], sql, args)
    ensures opts == None || opts.value.kind !in {"", "IGNORE", "UPDATE"} ==>
              WrittenInsert(dialect, false, table, columns, vars, map[], [], sql, args)
  {
    hide InsertText, Formatted, AllRowMarks, Appended, Join, ConflictTexts, ConflictArgs, WrittenInsert, Creation.Flatten;
    var kind := if opts == None then "NONE" else if opts.value.kind == "" then "IGNORE" else opts.value.kind;
    var updates := if kind == "UPDATE" then opts.value.columns else map[];
    var texts, values;
    ok, texts, values := ConflictUpdates(updates);
    sql, args := "", [];
    if ok {
      ghost var order :| Enumerates(order, updates) && texts == ConflictTexts(updates, order) && values == ConflictArgs(updates, order);
      var rows;
      rows, args := InsertArguments(vars, values);
      sql := FormatSQL(InsertText(dialect, kind == "IGNORE", table, columns, rows, texts));
      IsWritten(dialect, kind == "IGNORE", table, columns, vars, updates, order, sql, args);
    }
  }

  lemma IsWritten(dialect: Dialect, ignore: bool, table: string, columns: seq<string>, vars: seq<seq<Value>>,
                  conflicts: map<string, ConflictValue>, order: seq<string>, sql: string, args: seq<Value>)
    requires forall k :: k in order ==> k in conflicts
    requires sql == Formatted(InsertText(dialect, ignore, table, columns, Join(AllRowMarks(vars), ", "), ConflictTexts(conflicts, order)))
    requires args == Creation.Flatten(Appended(vars, ConflictArgs(conflicts, order)))
    ensures WrittenInsert(dialect, ignore, table, columns, vars, conflicts, order, sql, args)
    ensures Enumerates(order, conflicts) && conflicts == map[] ==> order == []
  {
    if order != [] { assert order[0] in order; }
  }

  /** Text and arguments for the conflict columns in the given order. */
  ghost predicate WrittenInsert(dialect: Dialect, ignore: bool, table: string, columns: seq<string>, vars: seq<seq<Value>>,
                                conflicts: map<string, ConflictValue>, order: seq<string>, sql: string, args: seq<Value>)
    requires forall k :: k in order ==> k in conflicts
  {
    && sql == Formatted(InsertText(dialect, ignore, table, columns, Join(AllRowMarks(vars), ", "), ConflictTexts(conflicts, order)))
    && args == Creation.Flatten(Appended(vars, ConflictArgs(conflicts, order)))
  }

  // ----- names -----

  lemma ReadNameListBack(dialect: Dialect, ns: seq<string>, ts: seq<Token>)
    requires AllNames(ns)
    ensures ReadNameList(dialect, NameTokens(ns) + ([RParen] + ts)) == if ns == [] && dialect != MySQL then None else Some((ns, ts))
  {
    var all := NameTokens(ns) + ([RParen] + ts);
    if ns == [] {
      assert all == [RParen] + ts && all[1..] == ts;
    } else {
      ReadNamesBack(ns, ts);
      assert all[0] == Word(ns[0]);
    }
  }

  // ----- rows -----

  function MarkTokens(n: nat): seq<Token> {
    if n == 0 then [] else if n == 1 then [Word("?")] else [Word("?"), Comma] + MarkTokens(n - 1)
  }

  function RowTokens(n: nat): seq<Token> { [LParen] + (MarkTokens(n) + [RParen]) }

  function RowsTokens<T>(vars: seq<seq<T>>): seq<Token> {
    if vars == [] then []
    else if |vars| == 1 then RowTokens(|vars[0]|)
    else RowTokens(|vars[0]|) + ([Comma] + RowsTokens(vars[1..]))
  }

  lemma QuestionIsWord()
    ensures IsWord("?")
  {
    assert IsPlainWord("?");
    PlainIsWord("?");
  }

  lemma {:induction false} LexMarks(n: nat, rest: string)
    requires n > 0 && Bounded(rest)
    ensures Lex(Join(Marks(n), ",") + rest) == MarkTokens(n) + Lex(rest)
  {
    QuestionIsWord();
    hide Lex, Bounded, IsWord;
    if n == 1 {
      LexWord("?", rest);
    } else {
      var tail := Join(Marks(n - 1), ",") + rest;
      assert Marks(n)[1..] == Marks(n - 1);
      LexMarks(n - 1, rest);
      LexMark(',', tail);
      LexWord("?", "," + tail);
      JoinStep(Marks(n), ",", rest);
      TwoTokens(Word("?"), Comma, Lex(tail));
      Regroup([Word("?"), Comma], MarkTokens(n - 1), Lex(rest));
    }
  }

  lemma LexRow(n: nat, rest: string)
    ensures Lex(RowMarks(n) + rest) == RowTokens(n) + Lex(rest)
  {
    hide Lex, Bounded;
    var marks := Join(Marks(n), ",");
    LexMark(')', rest);
    if n == 0 { assert marks == "" && marks + (")" + rest) == ")" + rest; } else { LexMarks(n, ")" + rest); }
    LexMark('(', marks + (")" + rest));
    Regroup("(" + marks, ")", rest);
    Regroup("(", marks, ")" + rest);
    assert [LParen] + (MarkTokens(n) + ([RParen] + Lex(rest))) == RowTokens(n) + Lex(rest);
  }

  lemma {:induction false} LexRows<T>(vars: seq<seq<T>>, rest: string)
    requires vars != []
    ensures Lex(Join(AllRowMarks(vars), ", ") + rest) == RowsTokens(vars) + Lex(rest)
  {
    hide Lex, RowMarks, RowTokens;
    var ts := AllRowMarks(vars);
    if |vars| == 1 {
      LexRow(|vars[0]|, rest);
    } else {
      var tail := Join(ts[1..], ", ") + rest;
      assert ts[1..] == AllRowMarks(vars[1..]);
      LexRows(vars[1..], rest);
      LexComma(tail);
      LexRow(|vars[0]|, ", " + tail);
      JoinStep(ts, ", ", rest);
      Regroup([Comma], RowsTokens(vars[1..]), Lex(rest));
      Regroup(RowTokens(|vars[0]|), [Comma] + RowsTokens(vars[1..]), Lex(rest));
    }
  }

  lemma {:induction false} ReadMarksBack(n: nat, ts: seq<Token>, args: seq<Value>)
    requires 0 < n <= |args|
    ensures ReadMarks(MarkTokens(n) + ([RParen] + ts), args) == Ok(args[..n], ts, args[n..])
  {
    var all := MarkTokens(n) + ([RParen] + ts);
    if n == 1 {
      assert all[1] == RParen && all[2..] == ts && args[..1] == [args[0]];
    } else {
      ReadMarksBack(n - 1, ts, args[1..]);
      assert all == [Word("?"), Comma] + (MarkTokens(n - 1) + ([RParen] + ts));
      assert all[2..] == MarkTokens(n - 1) + ([RParen] + ts);
      assert args[..n] == [args[0]] + args[1..][..n - 1] && args[1..][n - 1..] == args[n..];
    }
  }

  lemma ReadRowBack(n: nat, ts: seq<Token>, args: seq<Value>)
    requires n <= |args|
    ensures ReadRow(RowTokens(n) + ts, args) == Ok(args[..n], ts, args[n..])
  {
    var all := RowTokens(n) + ts;
    assert all[0] == LParen && all[1..] == MarkTokens(n) + ([RParen] + ts);
    if n == 0 {
      assert all[1] == RParen && all[2..] == ts && args[..0] == [] && args[0..] == args;
    } else {
      ReadMarksBack(n, ts, args);
      assert all[1] == Word("?");
    }
  }

  /** Arguments cut into rows as wide as the given ones. */
  function Cut<T>(vars: seq<seq<T>>, args: seq<Value>): seq<seq<Value>>
    requires |Creation.Flatten(vars)| <= |args|
  {
    if vars == [] then [] else [args[..|vars[0]|]] + Cut(vars[1..], args[|vars[0]|..])
  }

  lemma {:induction false} ReadRowsBack<T>(vars: seq<seq<T>>, ts: seq<Token>, args: seq<Value>)
    requires vars != [] && |Creation.Flatten(vars)| <= |args| && (ts == [] || ts[0] != Comma)
    ensures ReadRows(RowsTokens(vars) + ts, args) == Ok(Cut(vars, args), ts, args[|Creation.Flatten(vars)|..])
  {
    hide RowTokens, ReadRow;
    var n := |vars[0]|;
    if |vars| == 1 {
      ReadRowBack(n, ts, args);
      assert vars[1..] == [] && Cut(vars, args) == [args[..n]];
    } else {
      var tail := RowsTokens(vars[1..]) + ts;
      ReadRowsBack(vars[1..], ts, args[n..]);
      ReadRowBack(n, [Comma] + tail, args);
      Regroup([Comma], RowsTokens(vars[1..]), ts);
      Regroup(RowTokens(n), [Comma] + RowsTokens(vars[1..]), ts);
      assert ([Comma] + tail)[1..] == tail;
      assert args[n..][|Creation.Flatten(vars[1..])|..] == args[|Creation.Flatten(vars)|..];
    }
  }

  lemma CutFirst(vars: seq<seq<Value>>, rest: seq<Value>)
    requires vars != [] && |Creation.Flatten(vars[1..])| <= |rest|
    ensures Cut(vars, vars[0] + rest) == [vars[0]] + Cut(vars[1..], rest)
  {
    assert (vars[0] + rest)[..|vars[0]|] == vars[0] && (vars[0] + rest)[|vars[0]|..] == rest;
  }

  lemma {:induction false} CutOwn(vars: seq<seq<Value>>, more: seq<Value>)
    ensures Cut(vars, Creation.Flatten(vars) + more) == vars
  {
    if vars != [] {
      CutOwn(vars[1..], more);
      Regroup(vars[0], Creation.Flatten(vars[1..]), more);
      CutFirst(vars, Creation.Flatten(vars[1..]) + more);
    }
  }

  // ----- conflict assignments -----

  function ConflictTokens(column: string, v: ConflictValue): seq<Token> {
    [Word(column), Word("=")] + if v.NilCollection? then [Word("VALUES"), LParen, Word(column), RParen] else [Word("?")]
  }

  function AllConflictTokens(columns: map<string, ConflictValue>, order: seq<string>): seq<Token>
    requires forall k :: k in order ==> k in columns
  {
    if order == [] then []
    else if |order| == 1 then ConflictTokens(order[0], columns[order[0]])
    else ConflictTokens(order[0], columns[order[0]]) + ([Comma] + AllConflictTokens(columns, order[1..]))
  }

  /** What a conflict is meant to set. */
  function ConflictSets(columns: map<string, ConflictValue>, order: seq<string>): seq<Assignment>
    requires forall k :: k in order ==> k in columns
  {
    if order == [] then [] else
      [(order[0], if columns[order[0]].Collection? then Given(columns[order[0]].v) else FromRow)]
      + ConflictSets(columns, order[1..])
  }

  lemma EqualsWord()
    ensures IsPlainWord("=") && Pad(" ")
  {
  }

  lemma ValuesWord()
    ensures IsPlainWord("VALUES") && IsWord("VALUES")
  {
    PlainIsWord("VALUES");
  }

  lemma LexConflict(column: string, v: ConflictValue, rest: string)
    requires IsName(column) && Bounded(rest)
    ensures Lex(ConflictText(column, v) + rest) == ConflictTokens(column, v) + Lex(rest)
  {
    var value := if v.NilCollection? then "VALUES(" + column + ")" else "?";
    EqualsWord();
    NameSolid(column);
    if v.NilCollection? { LexFromRow(column, rest); } else { QuestionIsWord(); LexWord("?", rest); }
    ConflictSplit(column, value, rest);
    hide *;
    LexKeyword(" ", "=", " ", value + rest);
    LexWord(column, " " + "=" + " " + (value + rest));
    TwoTokens(Word(column), Word("="), Lex(value + rest));
    ConflictJoin(column, v, Lex(rest));
  }

  lemma ConflictSplit(column: string, value: string, rest: string)
    ensures column + " = " + value + rest == column + (" " + "=" + " " + (value + rest))
  {
  }

  lemma ConflictJoin(column: string, v: ConflictValue, rest: seq<Token>)
    ensures [Word(column), Word("=")]
            + ((if v.NilCollection? then [Word("VALUES"), LParen, Word(column), RParen] else [Word("?")]) + rest)
            == ConflictTokens(column, v) + rest
    ensures ConflictText(column, v) == column + " = " + if v.NilCollection? then "VALUES(" + column + ")" else "?"
  {
  }

  lemma LexFromRow(column: string, rest: string)
    requires IsName(column)
    ensures Lex("VALUES(" + column + ")" + rest) == [Word("VALUES"), LParen, Word(column), RParen] + Lex(rest)
  {
    ValuesWord();
    NameSolid(column);
    FromRowSplit(column, rest);
    hide *;
    LexMark(')', rest);
    LexWord(column, ")" + rest);
    LexMark('(', column + (")" + rest));
    LexWord("VALUES", "(" + (column + (")" + rest)));
    FourTokens(Word("VALUES"), LParen, Word(column), RParen, Lex(rest));
  }

  lemma FromRowSplit(column: string, rest: string)
    ensures "VALUES(" + column + ")" + rest == "VALUES" + ("(" + (column + (")" + rest)))
  {
    assert "VALUES(" == "VALUES" + "(";
  }

  lemma FourTokens(a: Token, b: Token, c: Token, d: Token, rest: seq<Token>)
    ensures [a] + ([b] + ([c] + ([d] + rest))) == [a, b, c, d] + rest
  {
  }

  lemma {:induction false} LexConflicts(columns: map<string, ConflictValue>, order: seq<string>, rest: string)
    requires order != [] && Bounded(rest) && AllNames(order) && forall k :: k in order ==> k in columns
    ensures Lex(Join(ConflictTexts(columns, order), ", ") + rest) == AllConflictTokens(columns, order) + Lex(rest)
  {
    hide Lex, IsName, Bounded, ConflictText, ConflictTokens;
    var t, k := ConflictTexts(columns, order), order[0];
    if |order| == 1 {
      LexConflict(k, columns[k], rest);
    } else {
      var tail := Join(t[1..], ", ") + rest;
      assert t[1..] == ConflictTexts(columns, order[1..]);
      LexConflicts(columns, order[1..], rest);
      LexComma(tail);
      LexConflict(k, columns[k], ", " + tail);
      JoinStep(t, ", ", rest);
      Regroup([Comma], AllConflictTokens(columns, order[1..]), Lex(rest));
      Regroup(ConflictTokens(k, columns[k]), [Comma] + AllConflictTokens(columns, order[1..]), Lex(rest));
    }
  }

  /** The assignments with values taken from a list of arguments. */
  function SetsFrom(columns: map<string, ConflictValue>, order: seq<string>, args: seq<Value>): seq<Assignment>
    requires forall k :: k in order ==> k in columns
    requires |ConflictArgs(columns, order)| <= |args|
  {
    if order == [] then [] else
      var v := columns[order[0]];
      [(order[0], if v.Collection? then Given(args[0]) else FromRow)]
      + SetsFrom(columns, order[1..], args[|ConflictArg(v)|..])
  }

  lemma {:induction false} SetsFromOwn(columns: map<string, ConflictValue>, order: seq<string>, more: seq<Value>)
    requires forall k :: k in order ==> k in columns
    ensures SetsFrom(columns, order, ConflictArgs(columns, order) + more) == ConflictSets(columns, order)
  {
    if order != [] {
      var own := ConflictArg(columns[order[0]]);
      Regroup(own, ConflictArgs(columns, order[1..]), more);
      assert (own + (ConflictArgs(columns, order[1..]) + more))[|own|..] == ConflictArgs(columns, order[1..]) + more;
      SetsFromOwn(columns, order[1..], more);
    }
  }

  lemma ReadOneConflict(column: string, v: ConflictValue, ts: seq<Token>, args: seq<Value>, fromRow: bool)
    requires IsName(column) && v != Other && |ConflictArg(v)| <= |args| && (v.NilCollection? ==> fromRow)
    ensures ReadAssignment(ConflictTokens(column, v) + ts, args, fromRow)
            == Ok((column, if v.Collection? then Given(args[0]) else FromRow), ts, args[|ConflictArg(v)|..])
  {
    hide IsName;
    var all := ConflictTokens(column, v) + ts;
    assert all[0] == Word(column) && all[1] == Word("=");
    if v.NilCollection? {
      assert all[2] == Word("VALUES") && all[2..6] == [Word("VALUES"), LParen, Word(column), RParen] && all[6..] == ts;
      assert args[0..] == args;
    } else {
      assert all[2] == Word("?") && all[3..] == ts;
    }
  }

  predicate Updatable(columns: map<string, ConflictValue>, order: seq<string>) {
    AllNames(order) && forall k :: k in order ==> k in columns && columns[k] != Other
  }

  predicate AllGiven(columns: map<string, ConflictValue>, order: seq<string>) {
    forall k :: k in order && k in columns ==> columns[k].Collection?
  }

  lemma {:induction false} ReadConflicts(columns: map<string, ConflictValue>, order: seq<string>, args: seq<Value>, fromRow: bool)
    requires order != [] && Updatable(columns, order) && |ConflictArgs(columns, order)| <= |args|
    requires fromRow || AllGiven(columns, order)
    ensures ReadAssignments(AllConflictTokens(columns, order), args, fromRow)
            == Ok(SetsFrom(columns, order, args), [], args[|ConflictArgs(columns, order)|..])
  {
    hide IsName, ReadAssignment, ConflictTokens;
    var k := order[0];
    var own := ConflictArg(columns[k]);
    if |order| == 1 {
      ReadOneConflict(k, columns[k], [], args, fromRow);
      assert order[1..] == [] && ConflictTokens(k, columns[k]) + [] == ConflictTokens(k, columns[k]);
      assert SetsFrom(columns, order, args) == [(k, if columns[k].Collection? then Given(args[0]) else FromRow)];
    } else {
      var tail := AllConflictTokens(columns, order[1..]);
      ReadConflicts(columns, order[1..], args[|own|..], fromRow);
      ReadOneConflict(k, columns[k], [Comma] + tail, args, fromRow);
      assert ([Comma] + tail)[1..] == tail;
      assert args[|own|..][|ConflictArgs(columns, order[1..])|..] == args[|ConflictArgs(columns, order)|..];
    }
  }

  /** Without VALUES(column) there is no reading of a column that is to keep the value of the row. */
  lemma {:induction false} ReadNoConflicts(columns: map<string, ConflictValue>, order: seq<string>, args: seq<Value>)
    requires order != [] && Updatable(columns, order) && !AllGiven(columns, order)
    ensures ReadAssignments(AllConflictTokens(columns, order), args, false) == Fail
  {
    hide IsName, ReadAssignment, ConflictTokens;
    var k := order[0];
    var rest := if |order| == 1 then [] else [Comma] + AllConflictTokens(columns, order[1..]);
    assert AllConflictTokens(columns, order) == ConflictTokens(k, columns[k]) + rest;
    if columns[k].NilCollection? || args == [] {
      ReadNoConflict(k, columns[k], rest, args);
    } else {
      ReadOneConflict(k, columns[k], rest, args, false);
      assert |order| > 1;
      ReadNoConflicts(columns, order[1..], args[1..]);
      assert rest[1..] == AllConflictTokens(columns, order[1..]);
    }
  }

  lemma ReadNoConflict(column: string, v: ConflictValue, rest: seq<Token>, args: seq<Value>)
    requires v.NilCollection? || args == []
    ensures ReadAssignment(ConflictTokens(column, v) + rest, args, false) == Fail
  {
    hide IsName;
    var all := ConflictTokens(column, v) + rest;
    assert all[2] == if v.NilCollection? then Word("VALUES") else Word("?");
  }

  // ----- the whole text -----

  function TailTokens(dialect: Dialect, ignore: bool, columns: map<string, ConflictValue>, order: seq<string>): seq<Token>
    requires forall k :: k in order ==> k in columns
  {
    if order != [] then
      if dialect == MySQL then [Word("ON"), Word("DUPLICATE"), Word("KEY"), Word("UPDATE")] + AllConflictTokens(columns, order)
      else [Word("ON"), Word("CONFLICT"), Word("DO"), Word("UPDATE")] + ([Word("SET")] + AllConflictTokens(columns, order))
    else if dialect == Postgres && ignore then [Word("ON"), Word("CONFLICT"), Word("DO"), Word("NOTHING")]
    else []
  }

  function IgnoreTokens(dialect: Dialect, ignore: bool): seq<Token> {
    if !ignore then []
    else
      match dialect
      case MySQL => [Word("IGNORE")]
      case SQLite => [Word("OR"), Word("IGNORE")]
      case Postgres => []
  }

  lemma OnWords()
    ensures IsPlainWord("ON") && IsPlainWord("KEY")
  {
  }

  lemma DuplicateWord()
    ensures IsPlainWord("DUPLICATE")
  {
  }

  lemma UpdateWord()
    ensures IsPlainWord("UPDATE")
  {
  }

  lemma ConflictWords()
    ensures IsPlainWord("CONFLICT") && IsPlainWord("NOTHING")
  {
  }

  lemma DoWords()
    ensures IsPlainWord("DO") && IsPlainWord("SET") && IsPlainWord("OR")
  {
  }

  /** Four words in a row. */
  lemma LexFourWords(gap: string, a: string, b: string, gap': string, c: string, d: string, gap'': string, rest: string)
    requires Pad(gap) && Pad(" ") && Pad(gap') && gap' != "" && Pad(gap'') && gap'' != ""
    requires IsPlainWord(a) && IsPlainWord(b) && IsPlainWord(c) && IsPlainWord(d)
    ensures Lex(gap + a + " " + (b + gap' + (c + " " + (d + gap'' + rest)))) == [Word(a), Word(b), Word(c), Word(d)] + Lex(rest)
  {
    hide *;
    LexLeading(d, gap'', rest);
    LexLeading(c, " ", d + gap'' + rest);
    LexLeading(b, gap', c + " " + (d + gap'' + rest));
    LexKeyword(gap, a, " ", b + gap' + (c + " " + (d + gap'' + rest)));
    FourTokens(Word(a), Word(b), Word(c), Word(d), Lex(rest));
  }

  lemma LexUpdateTail(dialect: Dialect, ignore: bool, columns: map<string, ConflictValue>, order: seq<string>)
    requires order != [] && AllNames(order) && forall k :: k in order ==> k in columns
    ensures Lex(ConflictTail(dialect, ignore, ConflictTexts(columns, order))) == TailTokens(dialect, ignore, columns, order)
  {
    var sets := Join(ConflictTexts(columns, order), ", ");
    OnWords();
    UpdateWord();
    LexBreak();
    LexConflicts(columns, order, BREAK);
    hide Lex, IsPlainWord, Pad, AllConflictTokens, ConflictTexts, Join, IsName;
    assert AllConflictTokens(columns, order) + [] == AllConflictTokens(columns, order);
    if dialect == MySQL {
      DuplicateWord();
      LexFourWords(BREAK, "ON", "DUPLICATE", " ", "KEY", "UPDATE", " ", sets + BREAK);
    } else {
      ConflictWords();
      DoWords();
      WiderGaps();
      LexLeading("SET", " ", sets + BREAK);
      LexFourWords(BREAK, "ON", "CONFLICT", "  ", "DO", "UPDATE", " " + BREAK, "SET" + " " + (sets + BREAK));
    }
  }

  lemma WiderGaps()
    ensures Pad("  ") && Pad(" " + BREAK)
  {
  }

  lemma LexNothingTail()
    ensures Lex(BREAK + "ON" + " " + ("CONFLICT" + "  " + ("DO" + " " + ("NOTHING" + BREAK))))
            == [Word("ON"), Word("CONFLICT"), Word("DO"), Word("NOTHING")]
  {
    OnWords();
    ConflictWords();
    DoWords();
    WiderGaps();
    LexBreak();
    assert Lex("") == [];
    hide Lex, IsPlainWord, Pad;
    LexFourWords(BREAK, "ON", "CONFLICT", "  ", "DO", "NOTHING", BREAK, "");
    assert "NOTHING" + BREAK + "" == "NOTHING" + BREAK;
  }

  lemma LexTail(dialect: Dialect, ignore: bool, columns: map<string, ConflictValue>, order: seq<string>)
    requires AllNames(order) && forall k :: k in order ==> k in columns
    ensures Lex(ConflictTail(dialect, ignore, ConflictTexts(columns, order))) == TailTokens(dialect, ignore, columns, order)
  {
    if order != [] {
      LexUpdateTail(dialect, ignore, columns, order);
    } else if dialect == Postgres && ignore {
      LexNothingTail();
    }
  }

  lemma IntoWord()
    ensures IsPlainWord("INTO")
  {
  }

  lemma HeadWords()
    ensures IsPlainWord("INSERT") && IsPlainWord("IGNORE")
  {
  }

  /** Table and columns. */
  lemma LexColumns(table: string, columns: seq<string>, rest: string)
    requires IsName(table) && AllNames(columns)
    ensures Lex("INTO" + " " + (table + (" " + ("(" + (Join(columns, ", ") + (")" + rest))))))
            == [Word("INTO"), Word(table), LParen] + (NameTokens(columns) + ([RParen] + Lex(rest)))
  {
    Gaps();
    IntoWord();
    NameSolid(table);
    hide *;
    var names := Join(columns, ", ");
    LexMark(')', rest);
    LexNameList(columns, ", ", ")" + rest);
    LexMark('(', names + (")" + rest));
    LexGap(" ", "(" + (names + (")" + rest)));
    LexWord(table, " " + ("(" + (names + (")" + rest))));
    LexLeading("INTO", " ", table + (" " + ("(" + (names + (")" + rest)))));
    ThreeTokens(Word("INTO"), Word(table), LParen, NameTokens(columns) + ([RParen] + Lex(rest)));
  }

  /** The rows and what follows them. */
  lemma LexValues<T>(dialect: Dialect, ignore: bool, vars: seq<seq<T>>, columns: map<string, ConflictValue>, order: seq<string>)
    requires vars != [] && AllNames(order) && forall k :: k in order ==> k in columns
    ensures Lex(BREAK + "VALUES" + BREAK + (Join(AllRowMarks(vars), ", ")
                + (BREAK + ConflictTail(dialect, ignore, ConflictTexts(columns, order)))))
            == [Word("VALUES")] + (RowsTokens(vars) + TailTokens(dialect, ignore, columns, order))
  {
    var tail := BREAK + ConflictTail(dialect, ignore, ConflictTexts(columns, order));
    Gaps();
    ValuesWord();
    LexTail(dialect, ignore, columns, order);
    LexGap(BREAK, ConflictTail(dialect, ignore, ConflictTexts(columns, order)));
    LexRows(vars, tail);
    hide *;
    LexKeyword(BREAK, "VALUES", BREAK, Join(AllRowMarks(vars), ", ") + tail);
  }

  lemma LexInsert<T>(dialect: Dialect, ignore: bool, table: string, columns: seq<string>, vars: seq<seq<T>>,
                     conflicts: map<string, ConflictValue>,
                     order: seq<string>)
    requires IsName(table) && AllNames(columns) && vars != [] && AllNames(order) && forall k :: k in order ==> k in conflicts
    ensures Lex(InsertText(dialect, ignore, table, columns, Join(AllRowMarks(vars), ", "), ConflictTexts(conflicts, order)))
            == [Word("INSERT")] + (IgnoreTokens(dialect, ignore) + ([Word("INTO"), Word(table), LParen]
               + (NameTokens(columns) + ([RParen] + ([Word("VALUES")]
               + (RowsTokens(vars) + TailTokens(dialect, ignore, conflicts, order)))))))
  {
    var tail := BREAK + "VALUES" + BREAK + (Join(AllRowMarks(vars), ", ")
                + (BREAK + ConflictTail(dialect, ignore, ConflictTexts(conflicts, order))));
    var into := "INTO" + " " + (table + (" " + ("(" + (Join(columns, ", ") + (")" + tail)))));
    LexValues(dialect, ignore, vars, conflicts, order);
    LexColumns(table, columns, tail);
    LexHead(dialect, ignore, into);
    hide Lex, BREAK, ConflictTail, ConflictTexts, AllRowMarks, Join, NameTokens, RowsTokens, TailTokens, IsName, AllNames;
  }

  lemma LexHead(dialect: Dialect, ignore: bool, into: string)
    ensures Lex("INSERT" + " " + (IgnoreText(dialect, ignore) + into)) == [Word("INSERT")] + (IgnoreTokens(dialect, ignore) + Lex(into))
  {
    HeadWords();
    Gaps();
    LexIgnore(dialect, ignore, into);
    hide *;
    LexLeading("INSERT", " ", IgnoreText(dialect, ignore) + into);
  }

  lemma LexIgnore(dialect: Dialect, ignore: bool, into: string)
    ensures Lex(IgnoreText(dialect, ignore) + into) == IgnoreTokens(dialect, ignore) + Lex(into)
  {
    HeadWords();
    DoWords();
    Gaps();
    hide Lex, IsPlainWord, Pad;
    if !ignore || dialect == Postgres {
      assert "" + into == into && [] + Lex(into) == Lex(into);
    } else if dialect == MySQL {
      LexLeading("IGNORE", " ", into);
    } else {
      LexLeading("IGNORE", " ", into);
      LexLeading("OR", " ", "IGNORE" + " " + into);
      Regroup("OR" + " ", "IGNORE" + " ", into);
      TwoTokens(Word("OR"), Word("IGNORE"), Lex(into));
    }
  }

  // ----- main result -----

  lemma AlignedArguments(vars: seq<seq<Value>>, more: seq<Value>)
    requires |vars| == 1 || more == []
    ensures Creation.Flatten(Appended(vars, more)) == Creation.Flatten(vars) + more
  {
    if |vars| == 1 {
      assert vars[1..] == [] && Appended(vars, more) == [vars[0] + more] && Creation.Flatten(vars) == vars[0] + [] == vars[0];
      assert [vars[0] + more][1..] == [] && vars[0] + more + [] == vars[0] + more;
    } else {
      AppendNothing(vars, more);
    }
  }

  /** What a database makes of the conflict clause: MySQL of any, SQLite of given values alone, PostgreSQL of none. */
  predicate TailFits(dialect: Dialect, conflicts: map<string, ConflictValue>, order: seq<string>) {
    match dialect
    case MySQL => true
    case SQLite => AllGiven(conflicts, order)
    case Postgres => order == []
  }

  lemma ReadUpdateTail(dialect: Dialect, conflicts: map<string, ConflictValue>, order: seq<string>, args: seq<Value>)
    requires order != [] && Updatable(conflicts, order) && |ConflictArgs(conflicts, order)| <= |args|
    ensures ReadConflict(dialect, TailTokens(dialect, false, conflicts, order), args)
            == if TailFits(dialect, conflicts, order)
               then Ok((false, SetsFrom(conflicts, order, args)), [], args[|ConflictArgs(conflicts, order)|..])
               else Fail
  {
    var tokens := AllConflictTokens(conflicts, order);
    hide AllConflictTokens, SetsFrom, IsName, ReadConflict, ReadAssignments;
    if dialect == MySQL {
      ReadConflicts(conflicts, order, args, true);
      ReadOnDuplicate(tokens, args);
    } else {
      if AllGiven(conflicts, order) { ReadConflicts(conflicts, order, args, false); } else { ReadNoConflicts(conflicts, order, args); }
      ReadOnConflict(dialect, tokens, args);
    }
    hide *;
  }

  lemma ReadOnDuplicate(tokens: seq<Token>, args: seq<Value>)
    ensures ReadConflict(MySQL, [Word("ON"), Word("DUPLICATE"), Word("KEY"), Word("UPDATE")] + tokens, args)
            == ConflictRead(ReadAssignments(tokens, args, true))
  {
    hide ReadAssignments, ConflictRead;
    var ts := [Word("ON"), Word("DUPLICATE"), Word("KEY"), Word("UPDATE")] + tokens;
    assert ts[0] == Word("ON") && ts[1] == Word("DUPLICATE") && ts[2] == Word("KEY") && ts[3] == Word("UPDATE") && ts[4..] == tokens;
  }

  lemma ReadOnConflict(dialect: Dialect, tokens: seq<Token>, args: seq<Value>)
    requires dialect != MySQL
    ensures ReadConflict(dialect, [Word("ON"), Word("CONFLICT"), Word("DO"), Word("UPDATE")] + ([Word("SET")] + tokens), args)
            == if dialect == SQLite then ConflictRead(ReadAssignments(tokens, args, false)) else Fail
  {
    hide ReadAssignments, ConflictRead;
    var ts := [Word("ON"), Word("CONFLICT"), Word("DO"), Word("UPDATE")] + ([Word("SET")] + tokens);
    assert ts[0] == Word("ON") && ts[1] == Word("CONFLICT") && ts[2] == Word("DO") && ts[3] == Word("UPDATE");
    assert ts[4] == Word("SET") && ts[5..] == tokens;
  }

  lemma ReadTailBack(dialect: Dialect, ignore: bool, conflicts: map<string, ConflictValue>, order: seq<string>, args: seq<Value>)
    requires Updatable(conflicts, order) && |ConflictArgs(conflicts, order)| <= |args|
    ensures ReadConflict(dialect, TailTokens(dialect, ignore, conflicts, order), args)
            == if TailFits(dialect, conflicts, order)
               then Ok((dialect == Postgres && ignore, SetsFrom(conflicts, order, args)), [], args[|ConflictArgs(conflicts, order)|..])
               else Fail
  {
    if order == [] {
      assert args[0..] == args;
    } else {
      ReadUpdateTail(dialect, conflicts, order, args);
      assert TailTokens(dialect, ignore, conflicts, order) == TailTokens(dialect, false, conflicts, order);
      hide ReadAssignments, AllConflictTokens, TailTokens, ReadConflict;
    }
  }

  lemma TailStart(dialect: Dialect, ignore: bool, conflicts: map<string, ConflictValue>, order: seq<string>)
    requires forall k :: k in order ==> k in conflicts
    ensures var tail := TailTokens(dialect, ignore, conflicts, order); tail == [] || tail[0] == Word("ON")
  {
  }

  lemma ReadIntoBack(dialect: Dialect, ignore: bool, said: bool, table: string, columns: seq<string>, vars: seq<seq<Value>>,
                     conflicts: map<string, ConflictValue>, order: seq<string>, args: seq<Value>)
    requires IsName(table) && AllNames(columns) && vars != [] && Updatable(conflicts, order)
    requires |args| >= |Creation.Flatten(vars)| + |ConflictArgs(conflicts, order)|
    ensures var ts := [Word(table), LParen] + (NameTokens(columns) + ([RParen] + ([Word("VALUES")]
                        + (RowsTokens(vars) + TailTokens(dialect, ignore, conflicts, order)))));
            var left := args[|Creation.Flatten(vars)|..];
            ReadInto(dialect, said, ts, args)
            == if (columns != [] || dialect == MySQL) && TailFits(dialect, conflicts, order) && |left| == |ConflictArgs(conflicts, order)|
               then Some(Insert(said || (dialect == Postgres && ignore), table, columns, Cut(vars, args), SetsFrom(conflicts, order, left)))
               else None
  {
    hide IsName, ReadNameList, ReadRows, ReadConflict, NameTokens, RowsTokens, TailTokens, Cut, SetsFrom, TailFits,
         ConflictArgs, Creation.Flatten;
    var tail := TailTokens(dialect, ignore, conflicts, order);
    var values := [Word("VALUES")] + (RowsTokens(vars) + tail);
    var ts := [Word(table), LParen] + (NameTokens(columns) + ([RParen] + values));
    assert ts[0] == Word(table) && ts[1] == LParen && ts[2..] == NameTokens(columns) + ([RParen] + values);
    ReadNameListBack(dialect, columns, values);
    assert values[0] == Word("VALUES") && values[1..] == RowsTokens(vars) + tail;
    TailStart(dialect, ignore, conflicts, order);
    ReadRowsBack(vars, tail, args);
    ReadTailBack(dialect, ignore, conflicts, order, args[|Creation.Flatten(vars)|..]);
  }

  /** What a batch must be like for its final text to be the INSERT that was meant. */
  predicate InsertFits(dialect: Dialect, columns: seq<string>, vars: seq<seq<Value>>, conflicts: map<string, ConflictValue>,
                       order: seq<string>)
    requires forall k :: k in order ==> k in conflicts
  {
    match dialect
    case MySQL => |vars| == 1 || ConflictArgs(conflicts, order) == []
    case SQLite => columns != [] && (order == [] || (|vars| == 1 && AllGiven(conflicts, order)))
    case Postgres => columns != [] && order == []
  }

  /**
   The final text of an INSERT, read as SQL with its arguments from left to right, inserts exactly the rows it was
   built from and sets every conflict column to its own value, if and only if: in MySQL there is one row or no
   conflict value; in SQLite there is a column, and one row and no nil value if conflict columns are to be set; in
   PostgreSQL there is a column and none of them is to be set. Otherwise it is no INSERT: arguments are left over,
   as the values stand behind every row, or the conflict clause is none of that database.
   */
  lemma InsertReadsExactlyWhen(dialect: Dialect, ignore: bool, table: string, columns: seq<string>, vars: seq<seq<Value>>,
                               conflicts: map<string, ConflictValue>, order: seq<string>)
    requires IsName(table) && AllNames(columns) && vars != [] && Updatable(conflicts, order)
    requires forall row :: row in vars ==> |row| == |columns|
    requires MarkerSafe(InsertText(dialect, ignore, table, columns, Join(AllRowMarks(vars), ", "), ConflictTexts(conflicts, order)))
    ensures var text := Formatted(InsertText(dialect, ignore, table, columns, Join(AllRowMarks(vars), ", "),
                                             ConflictTexts(conflicts, order)));
            var more := ConflictArgs(conflicts, order);
            ReadInsert(dialect, Lex(text), Creation.Flatten(Appended(vars, more)))
            == if InsertFits(dialect, columns, vars, conflicts, order)
               then Some(Insert(ignore, table, columns, vars, ConflictSets(conflicts, order))) else None
  {
    var more := ConflictArgs(conflicts, order);
    var args := Creation.Flatten(Appended(vars, more));
    AppendedLength(vars, more);
    Multiples(|vars|, |more|);
    FitsExactly(dialect, columns, vars, conflicts, order);
    hide *;
    ReadTextBack(dialect, ignore, table, columns, vars, conflicts, order, args);
    if |vars| == 1 || more == [] {
      AlignedArguments(vars, more);
      AlignedReading(vars, more, conflicts, order);
    }
  }

  lemma FitsExactly(dialect: Dialect, columns: seq<string>, vars: seq<seq<Value>>, conflicts: map<string, ConflictValue>,
                    order: seq<string>)
    requires Updatable(conflicts, order)
    ensures InsertFits(dialect, columns, vars, conflicts, order) <==>
            (columns != [] || dialect == MySQL) && TailFits(dialect, conflicts, order)
            && (|vars| == 1 || ConflictArgs(conflicts, order) == [])
  {
  }

  lemma AlignedReading(vars: seq<seq<Value>>, more: seq<Value>, conflicts: map<string, ConflictValue>, order: seq<string>)
    requires (forall k :: k in order ==> k in conflicts) && more == ConflictArgs(conflicts, order)
    ensures var args := Creation.Flatten(vars) + more;
            && Cut(vars, args) == vars
            && args[|Creation.Flatten(vars)|..] == more
            && SetsFrom(conflicts, order, more) == ConflictSets(conflicts, order)
  {
    CutOwn(vars, more);
    assert more + [] == more;
    SetsFromOwn(conflicts, order, []);
  }

  lemma ReadTextBack(dialect: Dialect, ignore: bool, table: string, columns: seq<string>, vars: seq<seq<Value>>,
                     conflicts: map<string, ConflictValue>, order: seq<string>, args: seq<Value>)
    requires IsName(table) && AllNames(columns) && vars != [] && Updatable(conflicts, order)
    requires |args| >= |Creation.Flatten(vars)| + |ConflictArgs(conflicts, order)|
    requires MarkerSafe(InsertText(dialect, ignore, table, columns, Join(AllRowMarks(vars), ", "), ConflictTexts(conflicts, order)))
    ensures var text := Formatted(InsertText(dialect, ignore, table, columns, Join(AllRowMarks(vars), ", "),
                                             ConflictTexts(conflicts, order)));
            var left := args[|Creation.Flatten(vars)|..];
            ReadInsert(dialect, Lex(text), args)
            == if (columns != [] || dialect == MySQL) && TailFits(dialect, conflicts, order) && |left| == |ConflictArgs(conflicts, order)|
               then Some(Insert(ignore, table, columns, Cut(vars, args), SetsFrom(conflicts, order, left))) else None
  {
    FormattedKeepsTokens(InsertText(dialect, ignore, table, columns, Join(AllRowMarks(vars), ", "), ConflictTexts(conflicts, order)));
    LexInsert(dialect, ignore, table, columns, vars, conflicts, order);
    var rest := NameTokens(columns) + ([RParen] + ([Word("VALUES")] + (RowsTokens(vars) + TailTokens(dialect, ignore, conflicts, order))));
    assert rest != [] by { assert rest[|NameTokens(columns)|] == RParen; }
    hide *;
    ReadHead(dialect, ignore, table, rest, args);
    ReadIntoBack(dialect, ignore, ignore && dialect != Postgres, table, columns, vars, conflicts, order, args);
  }

  lemma Multiples(n: nat, k: nat)
    requires n >= 1
    ensures n * k >= k && (n * k == k <==> n == 1 || k == 0)
  {
    assert n * k == k + (n - 1) * k;
    if n > 1 && k > 0 { assert (n - 1) * k >= 1 * k; }
  }

  lemma ReadHead(dialect: Dialect, ignore: bool, table: string, rest: seq<Token>, args: seq<Value>)
    ensures ReadInsert(dialect, [Word("INSERT")] + (IgnoreTokens(dialect, ignore) + ([Word("INTO"), Word(table), LParen] + rest)), args)
            == ReadInto(dialect, ignore && dialect != Postgres, [Word(table), LParen] + rest, args)
  {
    hide ReadInto;
    var ts := [Word("INSERT")] + (IgnoreTokens(dialect, ignore) + ([Word("INTO"), Word(table), LParen] + rest));
    assert ts[0] == Word("INSERT");
    if !ignore || dialect == Postgres {
      assert ts[1] == Word("INTO") && ts[2..] == [Word(table), LParen] + rest;
    } else if dialect == MySQL {
      assert ts[1] == Word("IGNORE") && ts[2] == Word("INTO") && ts[3..] == [Word(table), LParen] + rest;
    } else {
      assert ts[1] == Word("OR") && ts[2] == Word("IGNORE") && ts[3] == Word("INTO") && ts[4..] == [Word(table), LParen] + rest;
    }
  }
}
