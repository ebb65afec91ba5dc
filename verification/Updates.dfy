/** model.go, Update: the final text, read as SQL with its arguments, sets every column to its own value. */
module Updates {
  import opened Strings
  import opened Maps
  import opened Schemas
  import opened Filters
  import opened SqlText
  import opened Tokens
  import opened SqlCondition
  import opened SqlStatement
  import opened Where
  import opened WhereProofs

  const NULL_FLAG: Value := Str("$$$NULL$$$")

  // ----- building -----

  /** One assignment of the SET clause. */
  function SetText(sch: Schema, k: string, v: Value): string {
    Column(sch, k) + (if v == NULL_FLAG then " = NULL" else " = ?")
  }

  function SetArgs(v: Value): seq<Value> { if v == NULL_FLAG then [] else [v] }

  function SetTexts(sch: Schema, pairs: map<string, Value>, order: seq<string>): (r: seq<string>)
    requires forall k :: k in order ==> k in pairs
    ensures |r| == |order|
  {
    if order == [] then [] else [SetText(sch, order[0], pairs[order[0]])] + SetTexts(sch, pairs, order[1..])
  }

  function AllSetArgs(pairs: map<string, Value>, order: seq<string>): seq<Value>
    requires forall k :: k in order ==> k in pairs
  {
    if order == [] then [] else SetArgs(pairs[order[0]]) + AllSetArgs(pairs, order[1..])
  }

  /** model.go:787-809: the SET list, for some order of the document's keys. */
  method SetList(sch: Schema, pairs: map<string, Value>, keys: seq<string>)
    returns (sets: seq<string>, pairsAttrs: seq<Value>)
    requires forall k :: k in keys ==> k in pairs
    ensures sets == SetTexts(sch, pairs, keys) && pairsAttrs == AllSetArgs(pairs, keys)
  {
    sets, pairsAttrs := [], [];
    assert keys[0..] == keys;
    for i := 0 to |keys|
      invariant sets + SetTexts(sch, pairs, keys[i..]) == SetTexts(sch, pairs, keys)
      invariant pairsAttrs + AllSetArgs(pairs, keys[i..]) == AllSetArgs(pairs, keys)
    {
      assert keys[i..][0] == keys[i] && keys[i..][1..] == keys[i + 1..];
      var k, v := keys[i], pairs[keys[i]];
      Regroup(sets, [SetText(sch, k, v)], SetTexts(sch, pairs, keys[i + 1..]));
      Regroup(pairsAttrs, SetArgs(v), AllSetArgs(pairs, keys[i + 1..]));
      if v == NULL_FLAG {
        sets := sets + [Column(sch, k) + " = NULL"];
        assert pairsAttrs + [] == pairsAttrs;
      } else {
        sets := sets + [Column(sch, k) + " = ?"];
        pairsAttrs := pairsAttrs + [v];
      }
    }
  }

  /** The template writes `<no value>` for a SET list that is missing. */
  function SetClause(sets: seq<string>): string { if sets == [] then "<no value>" else Join(sets, ", ") }

  /** driver_mysql.go:114-116, driver_postgres.go:103-105, driver_sqlite.go:95-97. */
  function UpdateText(table: string, sets: seq<string>, where: string): string {
    "UPDATE" + " " + (table + (BREAK + "SET" + " " + (SetClause(sets) + (BREAK + "WHERE" + " " + where))))
  }

  /** model.go:787-824. */
  method UpdateStatement(sch: Schema, pairs: map<string, Value>, filters: seq<Filter>) returns (sql: string, attrs: seq<Value>)
    ensures var d := ListDoc(sch, AndOp, filters);
            exists order :: Enumerates(order, pairs)
              && sql == Formatted(UpdateText(sch.nativeName, SetTexts(sch, pairs, order), MaybeText(d)))
              && attrs == AllSetArgs(pairs, order) + MaybeArgs(d)
  {
    hide Formatted, Normalised, MarkerSafe, UpdateText, MaybeText, MaybeArgs, ListDoc, SetTexts, AllSetArgs;
    var whereClause, whereAttrs := ParseWhere(sch, filters);
    var keys := Range(pairs);
    var sets, pairsAttrs := SetList(sch, pairs, keys);
    attrs := whereAttrs;
    if |pairsAttrs| > 0 {
      attrs := pairsAttrs + attrs;
    }
    sql := FormatSQL(UpdateText(sch.nativeName, sets, whereClause));
  }

  // ----- tokens of the SET clause -----

  function SetTokens(sch: Schema, k: string, v: Value): seq<Token> {
    [Word(Column(sch, k)), Word("="), Word(if v == NULL_FLAG then "NULL" else "?")]
  }

  function AllSetTokens(sch: Schema, pairs: map<string, Value>, order: seq<string>): seq<Token>
    requires forall k :: k in order ==> k in pairs
  {
    if order == [] then []
    else if |order| == 1 then SetTokens(sch, order[0], pairs[order[0]])
    else SetTokens(sch, order[0], pairs[order[0]]) + [Comma] + AllSetTokens(sch, pairs, order[1..])
  }

  lemma SetWords()
    ensures IsPlainWord("=") && IsWord("?") && IsWord("NULL") && Pad(" ")
  {
    hide IsWord;
    PlainIsWord("?");
    PlainIsWord("NULL");
  }

  lemma SetSplit(col: string, rest: string)
    ensures col + " = ?" + rest == col + (" " + "=" + " " + ("?" + rest))
    ensures col + " = NULL" + rest == col + (" " + "=" + " " + ("NULL" + rest))
  {
  }

  lemma LexAssignment(col: string, w: string, rest: string)
    requires IsName(col) && IsWord(w) && Bounded(rest)
    ensures Lex(col + (" " + "=" + " " + (w + rest))) == [Word(col), Word("="), Word(w)] + Lex(rest)
  {
    SetWords();
    NameSolid(col);
    hide *;
    LexWord(w, rest);
    LexKeyword(" ", "=", " ", w + rest);
    LexWord(col, " " + "=" + " " + (w + rest));
    ThreeTokens(Word(col), Word("="), Word(w), Lex(rest));
  }

  lemma LexSet(sch: Schema, k: string, v: Value, rest: string)
    requires IsName(Column(sch, k)) && Bounded(rest)
    ensures Lex(SetText(sch, k, v) + rest) == SetTokens(sch, k, v) + Lex(rest)
  {
    SetWords();
    SetSplit(Column(sch, k), rest);
    hide Lex, IsWord, IsPlainWord, Pad, IsName, Bounded, Column;
    LexAssignment(Column(sch, k), if v == NULL_FLAG then "NULL" else "?", rest);
  }

  lemma {:induction false} LexSets(sch: Schema, pairs: map<string, Value>, order: seq<string>, rest: string)
    requires order != [] && Bounded(rest) && forall k :: k in order ==> k in pairs && IsName(Column(sch, k))
    ensures Lex(Join(SetTexts(sch, pairs, order), ", ") + rest) == AllSetTokens(sch, pairs, order) + Lex(rest)
  {
    var t, one := SetTexts(sch, pairs, order), SetTokens(sch, order[0], pairs[order[0]]);
    hide Lex, IsName, Bounded, Column, SetTokens, SetText;
    if |order| == 1 {
      LexSet(sch, order[0], pairs[order[0]], rest);
    } else {
      var tail := Join(t[1..], ", ") + rest;
      LexSets(sch, pairs, order[1..], rest);
      LexComma(tail);
      LexSet(sch, order[0], pairs[order[0]], ", " + tail);
      JoinStep(t, ", ", rest);
      var others := AllSetTokens(sch, pairs, order[1..]);
      Regroup([Comma], others, Lex(rest));
      Regroup(one, [Comma], others + Lex(rest));
      Regroup(one + [Comma], others, Lex(rest));
    }
  }

  // ----- reading -----

  /** What an UPDATE is meant to set: every key's column to the value under the key. */
  function Assigned(sch: Schema, pairs: map<string, Value>, order: seq<string>): seq<Assignment>
    requires forall k :: k in order ==> k in pairs
  {
    if order == [] then [] else
      var k := order[0];
      var named := k in sch.fields && sch.fields[k].typ != "" && sch.fields[k].nativeName != "";
      [(if named then sch.fields[k].nativeName else k, if pairs[k] == Str("$$$NULL$$$") then Null else Given(pairs[k]))]
      + Assigned(sch, pairs, order[1..])
  }

  lemma ReadSet(sch: Schema, k: string, v: Value, ts: seq<Token>, more: seq<Value>)
    requires IsName(Column(sch, k))
    ensures ReadAssignment(SetTokens(sch, k, v) + ts, SetArgs(v) + more, false)
            == Ok((Column(sch, k), if v == NULL_FLAG then Null else Given(v)), ts, more)
  {
    hide IsName, Column;
    var all := SetTokens(sch, k, v) + ts;
    assert all[0] == Word(Column(sch, k)) && all[1] == Word("=") && all[3..] == ts;
    if v == NULL_FLAG {
      assert [] + more == more;
    } else {
      assert all[2] == Word("?");
      assert ([v] + more)[0] == v && ([v] + more)[1..] == more;
    }
  }

  lemma {:induction false} ReadSets(sch: Schema, pairs: map<string, Value>, order: seq<string>, ts: seq<Token>, more: seq<Value>)
    requires order != [] && forall k :: k in order ==> k in pairs && IsName(Column(sch, k))
    requires ts != [] && ts[0] != Comma
    ensures ReadAssignments(AllSetTokens(sch, pairs, order) + ts, AllSetArgs(pairs, order) + more, false)
            == Ok(Assigned(sch, pairs, order), ts, more)
  {
    hide IsName, ReadAssignment;
    var k, v := order[0], pairs[order[0]];
    if |order| == 1 {
      ReadSet(sch, k, v, ts, more);
      assert order[1..] == [] && SetArgs(v) + [] == SetArgs(v);
      assert Assigned(sch, pairs, order) == [(Column(sch, k), if v == NULL_FLAG then Null else Given(v))];
    } else {
      var tail, args := AllSetTokens(sch, pairs, order[1..]) + ts, AllSetArgs(pairs, order[1..]) + more;
      ReadSets(sch, pairs, order[1..], ts, more);
      ReadSet(sch, k, v, [Comma] + tail, args);
      assert ([Comma] + tail)[1..] == tail;
      Regroup(SetTokens(sch, k, v) + [Comma], AllSetTokens(sch, pairs, order[1..]), ts);
      Regroup(SetTokens(sch, k, v), [Comma], tail);
      Regroup(SetArgs(v), AllSetArgs(pairs, order[1..]), more);
    }
  }

  // ----- main result -----

  lemma UpdateWords()
    ensures IsPlainWord("UPDATE") && IsPlainWord("SET") && IsPlainWord("WHERE") && Pad(BREAK) && Pad(" ") && Pad("")
  {
  }

  lemma LexCondition(d: Option<Doc>)
    requires d.Some? ==> WellFormed(d.value)
    ensures Lex(MaybeText(d)) == if d.Some? then DocTokens(d.value) else []
  {
    if d.Some? {
      LexDoc(d.value, "");
      assert Text(d.value) + "" == Text(d.value) && DocTokens(d.value) + [] == DocTokens(d.value);
    }
  }

  lemma LexUpdate(table: string, sets: string, setTokens: seq<Token>, where: string)
    requires IsName(table)
    requires Lex(sets + (BREAK + "WHERE" + " " + where)) == setTokens + Lex(BREAK + "WHERE" + " " + where)
    ensures Lex("UPDATE" + " " + (table + (BREAK + "SET" + " " + (sets + (BREAK + "WHERE" + " " + where)))))
            == [Word("UPDATE")] + ([Word(table)] + ([Word("SET")] + (setTokens + ([Word("WHERE")] + Lex(where)))))
  {
    UpdateWords();
    NameSolid(table);
    hide *;
    var tail := BREAK + "WHERE" + " " + where;
    LexKeyword(BREAK, "WHERE", " ", where);
    LexKeyword(BREAK, "SET", " ", sets + tail);
    LexWord(table, BREAK + "SET" + " " + (sets + tail));
    LexLeading("UPDATE", " ", table + (BREAK + "SET" + " " + (sets + tail)));
  }

  lemma LexSetClause(sch: Schema, pairs: map<string, Value>, order: seq<string>, rest: string)
    requires Bounded(rest) && forall k :: k in order ==> k in pairs && IsName(Column(sch, k))
    ensures Lex(SetClause(SetTexts(sch, pairs, order)) + rest)
            == (if order == [] then [Word("<no"), Word("value>")] else AllSetTokens(sch, pairs, order)) + Lex(rest)
  {
    if order == [] { LexNoValue(rest); } else { LexSets(sch, pairs, order, rest); }
  }

  lemma LexNoValue(rest: string)
    requires Bounded(rest)
    ensures Lex(SetClause([]) + rest) == [Word("<no"), Word("value>")] + Lex(rest)
  {
    NoWord();
    ValueWord();
    NoValueSplit(rest);
    hide *;
    LexWord("value>", rest);
    LexLeading("<no", " ", "value>" + rest);
    TwoTokens(Word("<no"), Word("value>"), Lex(rest));
  }

  lemma NoValueSplit(rest: string)
    ensures SetClause([]) + rest == "<no" + " " + ("value>" + rest)
  {
  }

  lemma NoWord()
    ensures IsPlainWord("<no") && Pad("") && Pad(" ")
  {
  }

  lemma ValueWord()
    ensures IsWord("value>")
  {
    assert IsPlainWord("value>");
    PlainIsWord("value>");
  }

  /**
   The final text of an UPDATE, read as SQL with its arguments from left to right, sets every column to its own
   value, NULL flags included, under the condition of the filters. It reads as an UPDATE at all exactly when there
   is something to set and the filters say something.
   */
  lemma UpdateReadsExactlyWhen(sch: Schema, pairs: map<string, Value>, order: seq<string>, fs: seq<Filter>)
    requires IsName(sch.nativeName) && AllPlain(sch, fs) && forall k :: k in order ==> k in pairs && IsName(Column(sch, k))
    requires MarkerSafe(UpdateText(sch.nativeName, SetTexts(sch, pairs, order), MaybeText(ListDoc(sch, AndOp, fs))))
    ensures var d := ListDoc(sch, AndOp, fs);
            var text := Formatted(UpdateText(sch.nativeName, SetTexts(sch, pairs, order), MaybeText(d)));
            ReadUpdate(Lex(text), AllSetArgs(pairs, order) + MaybeArgs(d))
            == if order == [] || d == None then None
               else Some(Update(sch.nativeName, Assigned(sch, pairs, order), Tree(d.value)))
  {
    hide Lex, Formatted, MarkerSafe, IsName, ReadUpdate, IsPlainWord, Pad, Join, SetTexts, AllSetTokens, DocTokens;
    var d := ListDoc(sch, AndOp, fs);
    var sets := SetClause(SetTexts(sch, pairs, order));
    var setTokens := if order == [] then [Word("<no"), Word("value>")] else AllSetTokens(sch, pairs, order);
    LiveWellFormed(sch, fs);
    FormattedKeepsTokens(UpdateText(sch.nativeName, SetTexts(sch, pairs, order), MaybeText(d)));
    LexCondition(d);
    UpdateWords();
    LexKeyword(BREAK, "WHERE", " ", MaybeText(d));
    LexSetClause(sch, pairs, order, BREAK + "WHERE" + " " + MaybeText(d));
    LexUpdate(sch.nativeName, sets, setTokens, MaybeText(d));
    ReadTokens(sch, pairs, order, setTokens, d);
  }

  lemma {:induction false} AssignedAt(sch: Schema, pairs: map<string, Value>, order: seq<string>, i: nat)
    requires (forall k :: k in order ==> k in pairs) && i < |order|
    ensures var sets, v := Assigned(sch, pairs, order), pairs[order[i]];
            && |sets| == |order| && Denotes(sch, order[i], sets[i].0)
            && sets[i].1 == if v == Str("$$$NULL$$$") then Null else Given(v)
  {
    if i > 0 {
      AssignedAt(sch, pairs, order[1..], i - 1);
    } else if |order| > 1 {
      AssignedAt(sch, pairs, order[1..], 0);
    }
  }

  /**
   Assignment i of the UPDATE that is read back sets the column that key i stands for to the value under that key, or
   to NULL for the flag; and its condition tests the columns that the keys of the filters stand for.
   */
  lemma UpdateSetsColumns(sch: Schema, pairs: map<string, Value>, order: seq<string>, fs: seq<Filter>)
    requires IsName(sch.nativeName) && AllPlain(sch, fs) && forall k :: k in order ==> k in pairs && IsName(Column(sch, k))
    requires order != [] && ListDoc(sch, AndOp, fs).Some?
    requires MarkerSafe(UpdateText(sch.nativeName, SetTexts(sch, pairs, order), MaybeText(ListDoc(sch, AndOp, fs))))
    ensures var d := ListDoc(sch, AndOp, fs);
            var text := Formatted(UpdateText(sch.nativeName, SetTexts(sch, pairs, order), MaybeText(d)));
            var read := ReadUpdate(Lex(text), AllSetArgs(pairs, order) + MaybeArgs(d));
            && read.Some? && read.value.table == sch.nativeName && |read.value.sets| == |order|
            && (forall i :: 0 <= i < |order| ==>
                  && Denotes(sch, order[i], read.value.sets[i].0)
                  && read.value.sets[i].1 == (if pairs[order[i]] == Str("$$$NULL$$$") then Null else Given(pairs[order[i]])))
            && forall col :: col in CondColumns(read.value.cond) <==> Asked(sch, AllEntries(fs), col)
  {
    hide Lex, Formatted, MarkerSafe, IsName, ReadUpdate, UpdateText, SetTexts, AllSetArgs, Denotes, CondColumns, Asked, AllEntries,
         AllPlain;
    UpdateReadsExactlyWhen(sch, pairs, order, fs);
    forall i | 0 <= i < |order|
      ensures var sets, v := Assigned(sch, pairs, order), pairs[order[i]];
              |sets| == |order| && Denotes(sch, order[i], sets[i].0) && sets[i].1 == if v == Str("$$$NULL$$$") then Null else Given(v)
    {
      AssignedAt(sch, pairs, order, i);
    }
    assert |Assigned(sch, pairs, order)| == |order| by { AssignedAt(sch, pairs, order, 0); }
    forall col { ListColumns(sch, AndOp, fs, col); }
  }

  lemma ReadTokens(sch: Schema, pairs: map<string, Value>, order: seq<string>, setTokens: seq<Token>, d: Option<Doc>)
    requires IsName(sch.nativeName) && (d.Some? ==> WellFormed(d.value))
    requires forall k :: k in order ==> k in pairs && IsName(Column(sch, k))
    requires setTokens == if order == [] then [Word("<no"), Word("value>")] else AllSetTokens(sch, pairs, order)
    ensures var cond := if d.Some? then DocTokens(d.value) else [];
            ReadUpdate([Word("UPDATE")] + ([Word(sch.nativeName)] + ([Word("SET")] + (setTokens + ([Word("WHERE")] + cond)))),
                       AllSetArgs(pairs, order) + MaybeArgs(d))
            == if order == [] || d == None then None
               else Some(Update(sch.nativeName, Assigned(sch, pairs, order), Tree(d.value)))
  {
    var cond := if d.Some? then DocTokens(d.value) else [];
    var tail := [Word("WHERE")] + cond;
    var ts := [Word("UPDATE")] + ([Word(sch.nativeName)] + ([Word("SET")] + (setTokens + tail)));
    UpdateHead(Word("UPDATE"), Word(sch.nativeName), Word("SET"), setTokens + tail);
    assert tail[0] == Word("WHERE") && tail[1..] == cond;
    if order == [] {
      NoValueIsNoName();
      assert (setTokens + tail)[0] == Word("<no");
      hide *;
    } else {
      ReadSets(sch, pairs, order, tail, MaybeArgs(d));
      if d.Some? { ReadWhere(d.value); }
      hide IsName, ReadAssignments, WellFormed, DocTokens, ReadOr;
    }
  }

  lemma UpdateHead(a: Token, b: Token, c: Token, rest: seq<Token>)
    ensures var ts := [a] + ([b] + ([c] + rest)); |ts| >= 3 && ts[0] == a && ts[1] == b && ts[2] == c && ts[3..] == rest
  {
    ThreeTokens(a, b, c, rest);
    assert ([a, b, c] + rest)[3..] == rest;
  }

  lemma ReadWhere(d: Doc)
    requires WellFormed(d)
    ensures ReadOr(DocTokens(d), Args(d)) == Ok([Tree(d)], [], [])
  {
    assert DocTokens(d) + [] == DocTokens(d) && Args(d) + [] == Args(d);
    ReadDoc(d, [], []);
    ReadAlone(DocTokens(d), Args(d), Tree(d));
  }

  lemma NoValueIsNoName()
    ensures !IsName("<no")
  {
  }
}
