/** Reading back what parseWhere wrote gives the filter tree, with its arguments and its meaning. */
module WhereProofs {
  import opened Strings
  import opened Schemas
  import opened Filters
  import opened SqlText
  import opened ClosedText
  import opened Tokens
  import opened SqlCondition
  import opened Where

  // ----- the condition behind a text -----

  function Wrap(op: Operator, cs: seq<Cond>): Cond { if op == OrOp then OrOf(cs) else AndOf(cs) }

  function Tree(d: Doc): Cond {
    match d
    case Bare(col, cmp, arg) => Pred(col, cmp, if TakesArg(cmp) then arg else Nil)
    case Paren(op, ds) => Wrap(op, Trees(ds))
  }

  function Trees(ds: seq<Doc>): (cs: seq<Cond>)
    ensures |cs| == |ds|
  {
    if ds == [] then [] else [Tree(ds[0])] + Trees(ds[1..])
  }

  /** No empty group, and identifiers as columns. */
  predicate WellFormed(d: Doc) {
    match d
    case Bare(col, _, _) => IsName(col)
    case Paren(_, ds) => ds != [] && forall i :: 0 <= i < |ds| ==> WellFormed(ds[i])
  }

  predicate AllWellFormed(ds: seq<Doc>) { forall i :: 0 <= i < |ds| ==> WellFormed(ds[i]) }

  // ----- lexing -----

  function Words(ws: seq<string>): seq<Token> {
    if ws == [] then [] else [Word(ws[0])] + Words(ws[1..])
  }

  function Spaced(ws: seq<string>): string {
    if ws == [] then "" else " " + ws[0] + Spaced(ws[1..])
  }

  function CmpWords(cmp: Cmp): seq<string> {
    match cmp
    case Eq => ["=", "?"]
    case Ne => ["<>", "?"]
    case Like => ["LIKE", "?"]
    case Gt => [">", "?"]
    case Ge => [">=", "?"]
    case Lt => ["<", "?"]
    case Le => ["<=", "?"]
    case In => ["IN", "?"]
    case NotIn => ["NOT", "IN", "?"]
    case IsNull => ["IS", "NULL"]
    case NotNull => ["IS", "NOT", "NULL"]
    case NotBlank => ["<>", "''"]
  }

  lemma SpacedTwo(a: string, b: string)
    ensures Spaced([a, b]) == " " + a + (" " + b)
    ensures Words([a, b]) == [Word(a), Word(b)]
  {
    assert [a, b][1..] == [b] && [b][1..] == [];
    assert Spaced([b]) == " " + b + "" == " " + b;
    assert Words([b]) == [Word(b)];
  }

  lemma SpacedThree(a: string, b: string, c: string)
    ensures Spaced([a, b, c]) == " " + a + (" " + b + (" " + c))
    ensures Words([a, b, c]) == [Word(a), Word(b), Word(c)]
  {
    assert [a, b, c][1..] == [b, c];
    SpacedTwo(b, c);
  }

  lemma OrderTextSpaced(cmp: Cmp)
    requires cmp in {Eq, Ne, Gt, Ge, Lt, Le}
    ensures CmpText(cmp) == Spaced(CmpWords(cmp))
  {
    SpacedTwo(CmpWords(cmp)[0], "?");
  }

  lemma OtherTextSpaced(cmp: Cmp)
    requires cmp in {Like, In, IsNull, NotBlank}
    ensures CmpText(cmp) == Spaced(CmpWords(cmp))
  {
    SpacedTwo(CmpWords(cmp)[0], CmpWords(cmp)[1]);
  }

  lemma LongTextSpaced(cmp: Cmp)
    requires cmp in {NotIn, NotNull}
    ensures CmpText(cmp) == Spaced(CmpWords(cmp))
  {
    SpacedThree(CmpWords(cmp)[0], CmpWords(cmp)[1], CmpWords(cmp)[2]);
  }

  lemma CmpTextSpaced(cmp: Cmp)
    ensures CmpText(cmp) == Spaced(CmpWords(cmp))
  {
    match cmp {
      case Eq | Ne | Gt | Ge | Lt | Le => OrderTextSpaced(cmp);
      case Like | In | IsNull | NotBlank => OtherTextSpaced(cmp);
      case NotIn | NotNull => LongTextSpaced(cmp);
    }
  }

  lemma {:induction false} NameText(w: string)
    requires IsNameText(w)
    ensures Closed(w) && WordLen(w) == |w|
    decreases |w|
  {
    if w != "" { NameText(w[Unit(w)..]); }
  }

  lemma {:induction false} LexSpaced(ws: seq<string>, rest: string)
    requires AllWords(ws) && Bounded(rest)
    ensures Lex(Spaced(ws) + rest) == Words(ws) + Lex(rest)
    ensures Bounded(Spaced(ws) + rest)
  {
    if ws == [] {
      assert "" + rest == rest;
    } else {
      var tail := Spaced(ws[1..]) + rest;
      LexSpaced(ws[1..], rest);
      LexWord(ws[0], tail);
      Regroup(" " + ws[0], Spaced(ws[1..]), rest);
      Regroup(" ", ws[0], tail);
      assert (" " + (ws[0] + tail))[1..] == ws[0] + tail;
      Regroup([Word(ws[0])], Words(ws[1..]), Lex(rest));
    }
  }

  predicate AllWords(ws: seq<string>) { forall w :: w in ws ==> IsWord(w) }

  lemma OrderWordsSolid(cmp: Cmp)
    requires cmp in {Eq, Ne, Gt, Ge, Lt, Le}
    ensures AllWords(CmpWords(cmp))
  {
    hide IsWord;
    forall w | w in CmpWords(cmp) ensures IsWord(w) { PlainIsWord(w); }
  }

  lemma OtherWordsSolid(cmp: Cmp)
    requires cmp in {Like, In, IsNull, NotBlank}
    ensures AllWords(CmpWords(cmp))
  {
    EmptyLiteralIsWord();
    hide IsWord;
    forall w | w in CmpWords(cmp) && w != "''" ensures IsWord(w) { PlainIsWord(w); }
  }

  lemma LongWordsSolid(cmp: Cmp)
    requires cmp in {NotIn, NotNull}
    ensures AllWords(CmpWords(cmp))
  {
    hide IsWord;
    forall w | w in CmpWords(cmp) ensures IsWord(w) { PlainIsWord(w); }
  }

  lemma CmpWordsSolid(cmp: Cmp)
    ensures AllWords(CmpWords(cmp))
  {
    hide AllWords;
    if cmp in {Eq, Ne, Gt, Ge, Lt, Le} {
      OrderWordsSolid(cmp);
    } else if cmp in {NotIn, NotNull} {
      LongWordsSolid(cmp);
    } else {
      OtherWordsSolid(cmp);
    }
  }

  lemma EmptyLiteralIsWord()
    ensures IsWord("''")
  {
    var w := "''";
    assert LiteralLen(w) == 2 && w[2..] == "";
  }

  lemma NameSolid(w: string)
    requires IsName(w)
    ensures IsWord(w)
  {
    NameText(w);
  }

  function DocTokens(d: Doc): seq<Token>
    decreases d
  {
    match d
    case Bare(col, cmp, _) => [Word(col)] + Words(CmpWords(cmp))
    case Paren(op, ds) => [LParen] + JoinedTokens(op, ds) + [RParen]
  }

  function JoinedTokens(op: Operator, ds: seq<Doc>): seq<Token>
    decreases ds
  {
    if ds == [] then []
    else if |ds| == 1 then DocTokens(ds[0])
    else DocTokens(ds[0]) + [Word(if op == OrOp then "OR" else "AND")] + JoinedTokens(op, ds[1..])
  }

  lemma LexBare(d: Doc, rest: string)
    requires d.Bare? && WellFormed(d) && Bounded(rest)
    ensures Lex(Text(d) + rest) == DocTokens(d) + Lex(rest)
  {
    var ws := CmpWords(d.cmp);
    CmpTextSpaced(d.cmp);
    CmpWordsSolid(d.cmp);
    LexSpaced(ws, rest);
    NameSolid(d.col);
    LexWord(d.col, Spaced(ws) + rest);
    Regroup(d.col, Spaced(ws), rest);
    Regroup([Word(d.col)], Words(ws), Lex(rest));
  }

  lemma LexSeparator(op: Operator, rest: string)
    ensures Lex(Separator(op) + rest) == [Word(if op == OrOp then "OR" else "AND")] + Lex(rest)
    ensures Bounded(Separator(op) + rest)
  {
    JoiningWords();
    Gaps();
    SeparatorSplit(op, rest);
    hide *;
    LexKeyword(" ", if op == OrOp then "OR" else "AND", " ", rest);
  }

  lemma JoiningWords()
    ensures IsPlainWord("AND") && IsPlainWord("OR")
  {
  }

  lemma SeparatorSplit(op: Operator, rest: string)
    ensures Separator(op) + rest == " " + (if op == OrOp then "OR" else "AND") + " " + rest
  {
    assert Separator(op) == " " + (if op == OrOp then "OR" else "AND") + " ";
  }

  lemma LexComma(rest: string)
    ensures Lex(", " + rest) == [Comma] + Lex(rest) && Bounded(", " + rest)
  {
    assert (", " + rest)[1..] == " " + rest && (" " + rest)[1..] == rest;
  }

  lemma LexParens(inner: string, rest: string)
    ensures Lex("(" + inner + ")" + rest) == [LParen] + Lex(inner + (")" + rest))
    ensures Lex(")" + rest) == [RParen] + Lex(rest)
  {
    assert (")" + rest)[1..] == rest;
    assert "(" + inner + ")" + rest == "(" + (inner + (")" + rest));
    assert ("(" + (inner + (")" + rest)))[1..] == inner + (")" + rest);
  }

  lemma {:induction false} LexDoc(d: Doc, rest: string)
    requires WellFormed(d) && Bounded(rest)
    ensures Lex(Text(d) + rest) == DocTokens(d) + Lex(rest)
    decreases d
  {
    match d {
      case Bare(_, _, _) => LexBare(d, rest);
      case Paren(op, ds) =>
        LexJoined(op, ds, ")" + rest);
        LexParens(Join(Texts(ds), Separator(op)), rest);
        Regroup([LParen], JoinedTokens(op, ds), [RParen] + Lex(rest));
        Regroup([LParen] + JoinedTokens(op, ds), [RParen], Lex(rest));
    }
  }

  lemma {:induction false} LexJoined(op: Operator, ds: seq<Doc>, rest: string)
    requires ds != [] && AllWellFormed(ds) && Bounded(rest)
    ensures Lex(Join(Texts(ds), Separator(op)) + rest) == JoinedTokens(op, ds) + Lex(rest)
    decreases ds
  {
    var ts := Texts(ds);
    if |ds| == 1 {
      LexDoc(ds[0], rest);
    } else {
      assert ts[1..] == Texts(ds[1..]);
      var tail := Join(Texts(ds[1..]), Separator(op)) + rest;
      LexJoined(op, ds[1..], rest);
      LexSeparator(op, tail);
      LexDoc(ds[0], Separator(op) + tail);
      JoinStep(ts, Separator(op), rest);
      var w := [Word(if op == OrOp then "OR" else "AND")];
      Regroup(w, JoinedTokens(op, ds[1..]), Lex(rest));
      Regroup(DocTokens(ds[0]), w, JoinedTokens(op, ds[1..]) + Lex(rest));
      Regroup(DocTokens(ds[0]) + w, JoinedTokens(op, ds[1..]), Lex(rest));
    }
  }

  lemma JoinStep(ts: seq<string>, sep: string, rest: string)
    requires |ts| > 1
    ensures Join(ts, sep) + rest == ts[0] + (sep + (Join(ts[1..], sep) + rest))
  {
    Regroup(ts[0], sep, Join(ts[1..], sep) + rest);
    Regroup(ts[0] + sep, Join(ts[1..], sep), rest);
  }

  // ----- reading -----

  lemma ReadWithArg(col: string, op: string, cmp: Cmp, arg: Value, ts: seq<Token>, more: seq<Value>)
    requires IsName(col) && PlaceholderCmp(op) == Some(cmp)
    ensures ReadPredicate([Word(col), Word(op), Word("?")] + ts, [arg] + more) == Ok(Pred(col, cmp, arg), ts, more)
  {
    hide IsName;
    var all := [Word(col), Word(op), Word("?")] + ts;
    assert all[2..][0] == Word("?") && all[2..][1..] == ts && ([arg] + more)[1..] == more;
  }

  lemma ReadShort(col: string, cmp: Cmp, ts: seq<Token>, more: seq<Value>)
    requires IsName(col) && (cmp == IsNull || cmp == NotBlank)
    ensures ReadPredicate([Word(col)] + Words(CmpWords(cmp)) + ts, more) == Ok(Pred(col, cmp, Nil), ts, more)
  {
    hide IsName;
    var ws := CmpWords(cmp);
    SpacedTwo(ws[0], ws[1]);
    var all := [Word(col), Word(ws[0]), Word(ws[1])] + ts;
    assert [Word(col)] + Words(ws) + ts == all;
    assert all[2..][0] == Word(ws[1]) && all[3..] == ts;
  }

  lemma ReadLong(col: string, cmp: Cmp, arg: Value, ts: seq<Token>, more: seq<Value>)
    requires IsName(col) && (cmp == NotIn || cmp == NotNull)
    ensures ReadPredicate([Word(col)] + Words(CmpWords(cmp)) + ts, (if cmp == NotIn then [arg] else []) + more)
            == Ok(Pred(col, cmp, if cmp == NotIn then arg else Nil), ts, more)
  {
    hide IsName;
    var ws := CmpWords(cmp);
    SpacedThree(ws[0], ws[1], ws[2]);
    var all := [Word(col), Word(ws[0]), Word(ws[1]), Word(ws[2])] + ts;
    assert [Word(col)] + Words(ws) + ts == all;
    assert all[2..][0] == Word(ws[1]) && all[3..][0] == Word(ws[2]) && all[3..][1..] == ts && all[4..] == ts;
    if cmp == NotIn { assert ([arg] + more)[1..] == more; } else { assert [] + more == more; }
  }

  lemma ReadOrdinary(d: Doc, ts: seq<Token>, more: seq<Value>)
    requires d.Bare? && WellFormed(d) && d.cmp !in {IsNull, NotBlank, NotIn, NotNull}
    ensures ReadPredicate([Word(d.col)] + Words(CmpWords(d.cmp)) + ts, [d.arg] + more) == Ok(Pred(d.col, d.cmp, d.arg), ts, more)
  {
    var ws := CmpWords(d.cmp);
    SpacedTwo(ws[0], ws[1]);
    hide IsName, ReadPredicate;
    assert [Word(d.col)] + Words(ws) + ts == [Word(d.col), Word(ws[0]), Word("?")] + ts;
    ReadWithArg(d.col, ws[0], d.cmp, d.arg, ts, more);
  }

  lemma ReadBare(d: Doc, ts: seq<Token>, more: seq<Value>)
    requires d.Bare? && WellFormed(d)
    ensures ReadFactor(DocTokens(d) + ts, Args(d) + more) == Ok(Tree(d), ts, more)
  {
    assert DocTokens(d) + ts == [Word(d.col)] + Words(CmpWords(d.cmp)) + ts;
    var all := DocTokens(d) + ts;
    assert all[0] == Word(d.col);
    hide IsName, ReadPredicate;
    if d.cmp == IsNull || d.cmp == NotBlank {
      ReadShort(d.col, d.cmp, ts, more);
      assert [] + more == more;
    } else if d.cmp == NotIn || d.cmp == NotNull {
      ReadLong(d.col, d.cmp, d.arg, ts, more);
    } else {
      ReadOrdinary(d, ts, more);
    }
  }

  lemma {:induction false} ReadDoc(d: Doc, ts: seq<Token>, more: seq<Value>)
    requires WellFormed(d)
    ensures ReadFactor(DocTokens(d) + ts, Args(d) + more) == Ok(Tree(d), ts, more)
    decreases d
  {
    match d {
      case Bare(_, _, _) => ReadBare(d, ts, more);
      case Paren(op, ds) =>
        var inner := JoinedTokens(op, ds);
        var close := [RParen] + ts;
        assert DocTokens(d) + ts == [LParen] + (inner + close);
        assert ([LParen] + (inner + close))[1..] == inner + close;
        assert close[0] == RParen && close[1..] == ts;
        if op == OrOp {
          ReadDisjuncts(ds, close, more);
        } else {
          ReadConjuncts(ds, close, more);
        }
    }
  }

  /** A run of groups joined by AND is read as their conjunction. */
  lemma {:induction false} ReadConjuncts(ds: seq<Doc>, ts: seq<Token>, more: seq<Value>)
    requires ds != [] && AllWellFormed(ds) && !Starts(ts, "AND")
    ensures ReadAnd(JoinedTokens(AndOp, ds) + ts, AllArgs(ds) + more) == Ok(Trees(ds), ts, more)
    decreases ds
  {
    if |ds| == 1 {
      ReadDoc(ds[0], ts, more);
      assert ds[1..] == [] && AllArgs(ds) == Args(ds[0]) + [] == Args(ds[0]) && Trees(ds) == [Tree(ds[0])];
    } else {
      var w := [Word("AND")];
      var tail := JoinedTokens(AndOp, ds[1..]) + ts;
      ReadConjuncts(ds[1..], ts, more);
      ReadDoc(ds[0], w + tail, AllArgs(ds[1..]) + more);
      Regroup(Args(ds[0]), AllArgs(ds[1..]), more);
      Regroup(DocTokens(ds[0]), w, tail);
      Regroup(DocTokens(ds[0]) + w, JoinedTokens(AndOp, ds[1..]), ts);
      assert (w + tail)[1..] == tail;
    }
  }

  /** A run of groups joined by OR is read as their disjunction. */
  lemma {:induction false} ReadDisjuncts(ds: seq<Doc>, ts: seq<Token>, more: seq<Value>)
    requires ds != [] && AllWellFormed(ds) && !Starts(ts, "AND") && !Starts(ts, "OR")
    ensures ReadOr(JoinedTokens(OrOp, ds) + ts, AllArgs(ds) + more) == Ok(Trees(ds), ts, more)
    decreases ds
  {
    if |ds| == 1 {
      ReadDoc(ds[0], ts, more);
      assert ds[1..] == [] && AllArgs(ds) == Args(ds[0]) + [] == Args(ds[0]) && Trees(ds) == [Tree(ds[0])];
    } else {
      var w := [Word("OR")];
      var tail := JoinedTokens(OrOp, ds[1..]) + ts;
      ReadDisjuncts(ds[1..], ts, more);
      ReadDoc(ds[0], w + tail, AllArgs(ds[1..]) + more);
      Regroup(Args(ds[0]), AllArgs(ds[1..]), more);
      Regroup(DocTokens(ds[0]), w, tail);
      Regroup(DocTokens(ds[0]) + w, JoinedTokens(OrOp, ds[1..]), ts);
      assert (w + tail)[1..] == tail;
    }
  }

  lemma ReadAlone(ts: seq<Token>, args: seq<Value>, c: Cond)
    requires ReadFactor(ts, args) == Ok(c, [], [])
    ensures ReadOr(ts, args) == Ok([c], [], [])
  {
    assert ReadAnd(ts, args) == Ok([c], [], []);
  }

  /** The text of a group, read with its arguments, is the group. */
  lemma ReadBack(d: Doc)
    requires WellFormed(d)
    ensures ReadCondition(Text(d), Args(d)) == Some(Tree(d))
  {
    assert Text(d) + "" == Text(d) && DocTokens(d) + [] == DocTokens(d) && Args(d) + [] == Args(d);
    LexDoc(d, "");
    ReadDoc(d, [], []);
    ReadAlone(DocTokens(d), Args(d), Tree(d));
  }

  // ----- meaning -----

  function Evals(ds: seq<Doc>, row: Row): (vs: seq<Truth>)
    ensures |vs| == |ds|
  {
    if ds == [] then [] else [Eval(Tree(ds[0]), row)] + Evals(ds[1..], row)
  }

  lemma {:induction false} EvalAndIs(ds: seq<Doc>, row: Row)
    ensures EvalAnd(Trees(ds), row) == Combined(AndOp, Evals(ds, row))
  {
    if ds != [] {
      EvalAndIs(ds[1..], row);
      assert Trees(ds)[1..] == Trees(ds[1..]);
      var v, vs := Eval(Tree(ds[0]), row), Evals(ds[1..], row);
      assert forall t :: t in [v] + vs <==> t == v || t in vs;
    }
  }

  lemma {:induction false} EvalOrIs(ds: seq<Doc>, row: Row)
    ensures EvalOr(Trees(ds), row) == Combined(OrOp, Evals(ds, row))
  {
    if ds != [] {
      EvalOrIs(ds[1..], row);
      assert Trees(ds)[1..] == Trees(ds[1..]);
      var v, vs := Eval(Tree(ds[0]), row), Evals(ds[1..], row);
      assert forall t :: t in [v] + vs <==> t == v || t in vs;
    }
  }

  lemma GroupMeaning(op: Operator, ds: seq<Doc>, row: Row)
    requires ds != []
    ensures Eval(Wrap(op, Trees(ds)), row) == Combined(op, Evals(ds, row))
  {
    if |ds| == 1 {
      assert ds[1..] == [] && Evals(ds, row) == [Eval(Tree(ds[0]), row)];
    } else {
      EvalAndIs(ds, row);
      EvalOrIs(ds, row);
    }
  }

  lemma FoldMeaning(op: Operator, ds: seq<Doc>, row: Row)
    requires ds != []
    ensures Fold(op, ds).Some? && Eval(Tree(Fold(op, ds).value), row) == Combined(op, Evals(ds, row))
  {
    GroupMeaning(op, ds, row);
    if |ds| == 1 { assert Evals(ds, row) == [Eval(Tree(ds[0]), row)]; }
  }

  lemma EntryDocMeaning(sch: Schema, e: Entry, row: Row)
    ensures Eval(Tree(EntryDoc(sch, e)), row) == EntryMeaning(sch, e, row)
  {
    FewMeaning(EntryDoc(sch, e), row);
  }

  lemma FewMeaning(d: Doc, row: Row)
    requires d.Paren?
    ensures |d.docs| == 1 ==> Eval(Tree(d), row) == Eval(Tree(d.docs[0]), row)
    ensures |d.docs| == 2 ==>
              var a, b := Eval(Tree(d.docs[0]), row), Eval(Tree(d.docs[1]), row);
              Eval(Tree(d), row) == if d.op == AndOp then And3(a, b) else Or3(a, b)
  {
    if |d.docs| == 1 {
      assert Trees(d.docs) == [Tree(d.docs[0])];
    } else if |d.docs| == 2 {
      GroupMeaning(d.op, d.docs, row);
      assert d.docs[1..] == [d.docs[1]];
      assert Evals(d.docs, row) == [Eval(Tree(d.docs[0]), row), Eval(Tree(d.docs[1]), row)];
    }
  }

  lemma {:induction false} EntryDocsMeaning(sch: Schema, es: seq<Entry>, row: Row)
    ensures Evals(EntryDocs(sch, es), row) == EntryMeanings(sch, es, row)
  {
    if es != [] {
      EntryDocMeaning(sch, es[0], row);
      EntryDocsMeaning(sch, es[1..], row);
      assert EntryDocs(sch, es)[1..] == EntryDocs(sch, es[1..]);
    }
  }

  lemma {:induction false} ItemMeaning(sch: Schema, f: Filter, row: Row)
    ensures ItemDoc(sch, f).Some? == Meaning(sch, f, row).Some?
    ensures ItemDoc(sch, f).Some? ==> Eval(Tree(ItemDoc(sch, f).value), row) == Meaning(sch, f, row).value
    decreases f, 0
  {
    match f {
      case NilFilter =>
      case Group(op, fs) => ListDocMeaning(sch, op, fs, row);
      case Entries(op, es) =>
        EntryDocsMeaning(sch, es, row);
        if es != [] { FoldMeaning(op, EntryDocs(sch, es), row); }
    }
  }

  lemma {:induction false} LiveMeaning(sch: Schema, fs: seq<Filter>, row: Row)
    ensures Evals(LiveDocs(sch, fs), row) == Answers(sch, fs, row)
    decreases fs, 0
  {
    if fs != [] {
      ItemMeaning(sch, fs[0], row);
      LiveMeaning(sch, fs[1..], row);
      var d := ItemDoc(sch, fs[0]);
      if d.Some? { assert LiveDocs(sch, fs)[1..] == LiveDocs(sch, fs[1..]); }
    }
  }

  lemma {:induction false} ListDocMeaning(sch: Schema, op: Operator, fs: seq<Filter>, row: Row)
    ensures ListDoc(sch, op, fs).Some? == ListMeaning(sch, op, fs, row).Some?
    ensures ListDoc(sch, op, fs).Some? ==>
              Eval(Tree(ListDoc(sch, op, fs).value), row) == ListMeaning(sch, op, fs, row).value
    decreases fs, 1
  {
    LiveMeaning(sch, fs, row);
    var ds := LiveDocs(sch, fs);
    if ds != [] { FoldMeaning(op, ds, row); }
  }

  // ----- identifiers -----

  /** Every column the filter names is an identifier. */
  predicate PlainColumns(sch: Schema, f: Filter) {
    match f
    case NilFilter => true
    case Group(_, fs) => forall i :: 0 <= i < |fs| ==> PlainColumns(sch, fs[i])
    case Entries(_, es) => forall i :: 0 <= i < |es| ==> IsName(Column(sch, es[i].key))
  }

  predicate AllPlain(sch: Schema, fs: seq<Filter>) { forall i :: 0 <= i < |fs| ==> PlainColumns(sch, fs[i]) }

  lemma EntryDocWellFormed(sch: Schema, e: Entry)
    requires IsName(Column(sch, e.key))
    ensures WellFormed(EntryDoc(sch, e))
  {
    hide IsName;
  }

  lemma {:induction false} EntryDocsWellFormed(sch: Schema, es: seq<Entry>)
    requires forall i :: 0 <= i < |es| ==> IsName(Column(sch, es[i].key))
    ensures AllWellFormed(EntryDocs(sch, es))
  {
    hide IsName, EntryDoc;
    if es != [] {
      EntryDocWellFormed(sch, es[0]);
      EntryDocsWellFormed(sch, es[1..]);
    }
  }

  lemma {:induction false} ItemWellFormed(sch: Schema, f: Filter)
    requires PlainColumns(sch, f)
    ensures ItemDoc(sch, f).Some? ==> WellFormed(ItemDoc(sch, f).value)
    decreases f, 0
  {
    match f {
      case NilFilter =>
      case Group(op, fs) => LiveWellFormed(sch, fs);
      case Entries(op, es) => EntryDocsWellFormed(sch, es);
    }
  }

  lemma {:induction false} LiveWellFormed(sch: Schema, fs: seq<Filter>)
    requires AllPlain(sch, fs)
    ensures AllWellFormed(LiveDocs(sch, fs))
    decreases fs, 0
  {
    if fs != [] {
      ItemWellFormed(sch, fs[0]);
      LiveWellFormed(sch, fs[1..]);
    }
  }

  // ----- main results -----

  /**
   The text parseWhere writes, read under SQL precedence with its arguments bound left to right, has on every
   row the three-valued answer of the filter tree. No text is written exactly when the tree says nothing.
   */
  lemma WherePreservesMeaning(sch: Schema, fs: seq<Filter>, row: Row)
    requires AllPlain(sch, fs)
    ensures var d := ListDoc(sch, AndOp, fs);
            var answer := ListMeaning(sch, AndOp, fs, row);
            && (MaybeText(d) == "" <==> answer == None)
            && (answer == None ==> MaybeArgs(d) == [])
            && (answer != None ==>
                  var read := ReadCondition(MaybeText(d), MaybeArgs(d));
                  read.Some? && Eval(read.value, row) == answer.value)
  {
    ListDocMeaning(sch, AndOp, fs, row);
    var d := ListDoc(sch, AndOp, fs);
    if d.Some? {
      LiveWellFormed(sch, fs);
      TextNonempty(d.value);
      ReadBack(d.value);
    }
  }

  // ----- the columns that are tested -----

  /** The columns a condition tests. */
  function CondColumns(c: Cond): set<string> {
    match c
    case Pred(col, _, _) => {col}
    case Conj(cs) => AllCondColumns(cs)
    case Disj(cs) => AllCondColumns(cs)
  }

  function AllCondColumns(cs: seq<Cond>): set<string> {
    if cs == [] then {} else CondColumns(cs[0]) + AllCondColumns(cs[1..])
  }

  /** The entries of a filter tree, from left to right. */
  function EntriesOf(f: Filter): seq<Entry>
    decreases f, 0
  {
    match f
    case NilFilter => []
    case Group(_, fs) => AllEntries(fs)
    case Entries(_, es) => es
  }

  function AllEntries(fs: seq<Filter>): seq<Entry>
    decreases fs, 0
  {
    if fs == [] then [] else EntriesOf(fs[0]) + AllEntries(fs[1..])
  }

  /** A column that some entry's key stands for. */
  predicate Asked(sch: Schema, es: seq<Entry>, col: string) { exists i :: 0 <= i < |es| && Denotes(sch, es[i].key, col) }

  lemma AskedConcat(sch: Schema, a: seq<Entry>, b: seq<Entry>, col: string)
    ensures Asked(sch, a + b, col) <==> Asked(sch, a, col) || Asked(sch, b, col)
  {
    if Asked(sch, a, col) {
      var i :| 0 <= i < |a| && Denotes(sch, a[i].key, col);
      assert (a + b)[i] == a[i];
    }
    if Asked(sch, b, col) {
      var i :| 0 <= i < |b| && Denotes(sch, b[i].key, col);
      assert (a + b)[|a| + i] == b[i];
    }
  }

  lemma WrapColumns(op: Operator, cs: seq<Cond>)
    ensures CondColumns(Wrap(op, cs)) == AllCondColumns(cs)
  {
    if |cs| == 1 { assert AllCondColumns(cs[1..]) == {}; }
  }

  lemma EntryColumns(sch: Schema, e: Entry, col: string)
    ensures col in CondColumns(Tree(EntryDoc(sch, e))) <==> Denotes(sch, e.key, col)
  {
    var d := EntryDoc(sch, e);
    WrapColumns(d.op, Trees(d.docs));
    BareColumns(d.docs, Column(sch, e.key));
  }

  lemma {:induction false} BareColumns(ds: seq<Doc>, col: string)
    requires ds != [] && forall i :: 0 <= i < |ds| ==> ds[i].Bare? && ds[i].col == col
    ensures AllCondColumns(Trees(ds)) == {col}
  {
    assert Trees(ds)[1..] == Trees(ds[1..]);
    if |ds| > 1 { BareColumns(ds[1..], col); }
  }

  lemma {:induction false} EntryListColumns(sch: Schema, es: seq<Entry>, col: string)
    ensures col in AllCondColumns(Trees(EntryDocs(sch, es))) <==> Asked(sch, es, col)
  {
    hide EntryDoc, Denotes, Tree;
    if es != [] {
      EntryColumns(sch, es[0], col);
      EntryListColumns(sch, es[1..], col);
      assert Trees(EntryDocs(sch, es))[1..] == Trees(EntryDocs(sch, es[1..]));
      assert es == [es[0]] + es[1..];
      AskedConcat(sch, [es[0]], es[1..], col);
      assert Asked(sch, [es[0]], col) <==> Denotes(sch, [es[0]][0].key, col);
    }
  }

  lemma FoldColumns(op: Operator, ds: seq<Doc>)
    requires ds != []
    ensures CondColumns(Tree(Fold(op, ds).value)) == AllCondColumns(Trees(ds))
  {
    WrapColumns(op, Trees(ds));
    if |ds| == 1 { assert Trees(ds)[1..] == []; }
  }

  lemma {:induction false} ItemColumns(sch: Schema, f: Filter, col: string)
    ensures var d := ItemDoc(sch, f);
            (d.Some? && col in CondColumns(Tree(d.value))) <==> Asked(sch, EntriesOf(f), col)
    decreases f, 0
  {
    match f {
      case NilFilter =>
      case Group(op, fs) => ListColumns(sch, op, fs, col);
      case Entries(op, es) =>
        EntryListColumns(sch, es, col);
        if es != [] { FoldColumns(op, EntryDocs(sch, es)); }
    }
  }

  lemma {:induction false} LiveColumns(sch: Schema, fs: seq<Filter>, col: string)
    ensures col in AllCondColumns(Trees(LiveDocs(sch, fs))) <==> Asked(sch, AllEntries(fs), col)
    decreases fs, 0
  {
    hide Denotes, Tree, ItemDoc, CondColumns;
    if fs != [] {
      ItemColumns(sch, fs[0], col);
      LiveColumns(sch, fs[1..], col);
      AskedConcat(sch, EntriesOf(fs[0]), AllEntries(fs[1..]), col);
      var d := ItemDoc(sch, fs[0]);
      if d.Some? { assert Trees(LiveDocs(sch, fs))[1..] == Trees(LiveDocs(sch, fs[1..])); }
    }
  }

  lemma {:induction false} ListColumns(sch: Schema, op: Operator, fs: seq<Filter>, col: string)
    ensures var d := ListDoc(sch, op, fs);
            (d.Some? && col in CondColumns(Tree(d.value))) <==> Asked(sch, AllEntries(fs), col)
    decreases fs, 1
  {
    LiveColumns(sch, fs, col);
    var ds := LiveDocs(sch, fs);
    if ds != [] { FoldColumns(op, ds); }
  }

  /**
   The clause that is read back tests exactly the columns that the keys stand for: the native name of a field that has
   a type and such a name, and any other key itself.
   */
  lemma WhereTestsColumns(sch: Schema, fs: seq<Filter>)
    requires AllPlain(sch, fs) && ListDoc(sch, AndOp, fs).Some?
    ensures var d := ListDoc(sch, AndOp, fs);
            var read := ReadCondition(MaybeText(d), MaybeArgs(d));
            read.Some? && forall col :: col in CondColumns(read.value) <==> Asked(sch, AllEntries(fs), col)
  {
    var d := ListDoc(sch, AndOp, fs);
    LiveWellFormed(sch, fs);
    ReadBack(d.value);
    forall col { ListColumns(sch, AndOp, fs, col); }
  }

  /** What a pattern is made of: the text itself, the word for a flag, or what Go prints for nil. */
  lemma PatternsShowValues(sch: Schema, key: string, t: string)
    ensures Args(EntryDoc(sch, Entry(key, "$LIKE", Str(t)))) == [Str("%" + t + "%")]
    ensures Args(EntryDoc(sch, Entry(key, "$PREFIX", Str(t)))) == [Str(t + "%")]
    ensures Args(EntryDoc(sch, Entry(key, "$SUFFIX", Str(t)))) == [Str("%" + t)]
    ensures Args(EntryDoc(sch, Entry(key, "$PREFIX", Flag(true)))) == [Str("true%")]
    ensures Args(EntryDoc(sch, Entry(key, "$PREFIX", Flag(false)))) == [Str("false%")]
    ensures Args(EntryDoc(sch, Entry(key, "$PREFIX", Nil))) == [Str("<nil>%")]
  {
    OneArgument(sch, Entry(key, "$LIKE", Str(t)));
    OneArgument(sch, Entry(key, "$PREFIX", Str(t)));
    OneArgument(sch, Entry(key, "$SUFFIX", Str(t)));
    OneArgument(sch, Entry(key, "$PREFIX", Flag(true)));
    OneArgument(sch, Entry(key, "$PREFIX", Flag(false)));
    OneArgument(sch, Entry(key, "$PREFIX", Nil));
    assert "true" + "%" == "true%" && "false" + "%" == "false%" && "<nil>" + "%" == "<nil>%";
  }

  lemma OneArgument(sch: Schema, e: Entry)
    requires e.op in {"$LIKE", "$PREFIX", "$SUFFIX"}
    ensures var d := EntryDoc(sch, e); d.Paren? && |d.docs| == 1 && d.docs[0].Bare? && Args(d) == [d.docs[0].arg]
  {
    SmallGroup(EntryDoc(sch, e));
  }

  /** Adding a condition to a Result leaves the clauses before it as they were, one conjunct each. */
  lemma ChainingKeepsClauses(sch: Schema, fs: seq<Filter>, f: Filter)
    requires AllPlain(sch, fs + [f])
    ensures LiveDocs(sch, fs + [f]) == LiveDocs(sch, fs) + LiveDocs(sch, [f])
    ensures var ds := LiveDocs(sch, fs + [f]);
            ds != [] ==>
              var d := ListDoc(sch, AndOp, fs + [f]);
              ReadCondition(MaybeText(d), MaybeArgs(d)) == Some(AndOf(Trees(LiveDocs(sch, fs)) + Trees(LiveDocs(sch, [f]))))
  {
    LiveConcat(sch, fs, [f]);
    var ds := LiveDocs(sch, fs + [f]);
    if ds != [] {
      LiveWellFormed(sch, fs + [f]);
      var d := ListDoc(sch, AndOp, fs + [f]);
      ReadBack(d.value);
      TreesConcat(LiveDocs(sch, fs), LiveDocs(sch, [f]));
      if |ds| == 1 { assert Trees(ds) == [Tree(ds[0])]; }
    }
  }

  lemma {:induction false} LiveConcat(sch: Schema, fs: seq<Filter>, gs: seq<Filter>)
    ensures LiveDocs(sch, fs + gs) == LiveDocs(sch, fs) + LiveDocs(sch, gs)
  {
    if fs == [] {
      assert [] + gs == gs;
    } else {
      assert (fs + gs)[1..] == fs[1..] + gs;
      LiveConcat(sch, fs[1..], gs);
      var d := ItemDoc(sch, fs[0]);
      if d.Some? { Regroup([d.value], LiveDocs(sch, fs[1..]), LiveDocs(sch, gs)); }
    }
  }

  lemma {:induction false} TreesConcat(ds: seq<Doc>, es: seq<Doc>)
    ensures Trees(ds + es) == Trees(ds) + Trees(es)
  {
    if ds == [] {
      assert [] + es == es;
    } else {
      assert (ds + es)[1..] == ds[1..] + es;
      TreesConcat(ds[1..], es);
    }
  }
}
