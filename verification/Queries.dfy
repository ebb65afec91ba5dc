/** model.go and the drivers' query clauses: the final text of a SELECT, read as SQL. */
module Queries {
  import opened Strings
  import opened Schemas
  import opened Filters
  import opened SqlText
  import opened ClosedText
  import opened Tokens
  import opened SqlCondition
  import opened SqlStatement
  import opened Where
  import opened WhereProofs
  import opened NameLists

  // ----- numbers -----

  function Digit(d: nat): char
    requires d < 10
  {
    '0' + d as char
  }

  /** A number in decimal. */
  function Digits(n: nat): (r: string)
    ensures r != "" && forall c :: c in r ==> IsDigit(c)
  {
    if n < 10 then [Digit(n)] else Digits(n / 10) + [Digit(n % 10)]
  }

  function PowerOfTen(n: nat): nat
    decreases n
  {
    if n < 10 then 10 else 10 * PowerOfTen(n / 10)
  }

  lemma TenTimes(a: nat, b: nat)
    ensures 10 * (a * b) == a * (10 * b)
  {
  }

  lemma DigitStep(d: nat, sofar: nat, rest: string)
    requires d < 10
    ensures ReadDigits([Digit(d)] + rest, sofar) == ReadDigits(rest, 10 * sofar + d)
  {
    var s := [Digit(d)] + rest;
    assert IsDigit(s[0]) && s[1..] == rest;
  }

  /** Reading the digits of a number leaves its value as what has been read so far. */
  lemma {:induction false} DigitsRead(n: nat, sofar: nat, rest: string)
    ensures ReadDigits(Digits(n) + rest, sofar) == ReadDigits(rest, sofar * PowerOfTen(n) + n)
  {
    if n < 10 {
      DigitStep(n, sofar, rest);
    } else {
      Regroup(Digits(n / 10), [Digit(n % 10)], rest);
      DigitsRead(n / 10, sofar, [Digit(n % 10)] + rest);
      DigitStep(n % 10, sofar * PowerOfTen(n / 10) + n / 10, rest);
      TenTimes(sofar, PowerOfTen(n / 10));
    }
  }

  lemma NumberRead(n: nat)
    ensures ReadNumber(Word(Digits(n))) == Some(n) && IsWord(Digits(n)) && IsPlainWord(Digits(n))
  {
    DigitsRead(n, 0, "");
    assert Digits(n) + "" == Digits(n);
    PlainIsWord(Digits(n));
  }

  // ----- limit clauses -----

  /** The limit line of the three templates; the offset is left out at 0. */
  function LimitLine(dialect: Dialect, limit: nat, offset: int): string {
    match dialect
    case MySQL =>
      if offset > 0 then "LIMIT" + " " + (Digits(offset) + ("," + (" " + (Digits(limit) + BREAK))))
      else "LIMIT" + " " + (Digits(limit) + BREAK)
    case Postgres =>
      if offset > 0 then "LIMIT" + " " + (Digits(limit) + (BREAK + "OFFSET" + " " + (Digits(offset) + BREAK)))
      else "LIMIT" + " " + (Digits(limit) + (BREAK + BREAK))
    case SQLite =>
      if offset > 0 then "LIMIT" + " " + (Digits(limit) + (" " + "OFFSET" + " " + (Digits(offset) + BREAK)))
      else "LIMIT" + " " + (Digits(limit) + BREAK)
  }

  /** No line at all without a limit, whatever the offset. */
  function LimitSection(dialect: Dialect, limit: int, offset: int): string {
    if limit <= 0 then "" else BREAK + LimitLine(dialect, limit, offset)
  }

  function WindowOf(limit: int, offset: int): Window {
    if limit <= 0 then Everything else Window(if offset > 0 then offset else 0, limit)
  }

  function LimitTokens(dialect: Dialect, limit: int, offset: int): seq<Token> {
    if limit <= 0 then []
    else if offset <= 0 then [Word("LIMIT"), Word(Digits(limit))]
    else if dialect == MySQL then [Word("LIMIT"), Word(Digits(offset)), Comma, Word(Digits(limit))]
    else [Word("LIMIT"), Word(Digits(limit)), Word("OFFSET"), Word(Digits(offset))]
  }

  lemma LimitWord()
    ensures IsPlainWord("LIMIT")
  {
  }

  lemma OffsetWord()
    ensures IsPlainWord("OFFSET")
  {
  }

  lemma LexLast(n: nat)
    ensures Lex(Digits(n) + BREAK) == [Word(Digits(n))]
  {
    NumberRead(n);
    LexBreak();
    LexWord(Digits(n), BREAK);
  }

  lemma LexOneNumber(n: nat)
    ensures Lex("LIMIT" + " " + (Digits(n) + BREAK)) == [Word("LIMIT"), Word(Digits(n))]
  {
    LimitWord();
    LexLast(n);
    Gaps();
    hide *;
    LexLeading("LIMIT", " ", Digits(n) + BREAK);
  }

  lemma LexCommaForm(a: nat, b: nat)
    ensures Lex("LIMIT" + " " + (Digits(a) + ("," + (" " + (Digits(b) + BREAK)))))
            == [Word("LIMIT"), Word(Digits(a)), Comma, Word(Digits(b))]
  {
    LimitWord();
    Gaps();
    NumberRead(a);
    LexLast(b);
    LexMark(',', " " + (Digits(b) + BREAK));
    assert Mark(',') == Comma;
    hide *;
    var tail := Digits(b) + BREAK;
    LexGap(" ", tail);
    LexWord(Digits(a), "," + (" " + tail));
    LexLeading("LIMIT", " ", Digits(a) + ("," + (" " + tail)));
    ThreeTokens(Word("LIMIT"), Word(Digits(a)), Comma, [Word(Digits(b))]);
  }

  lemma LexOffsetForm(a: nat, gap: string, b: nat)
    requires Pad(gap) && gap != ""
    ensures Lex("LIMIT" + " " + (Digits(a) + (gap + "OFFSET" + " " + (Digits(b) + BREAK))))
            == [Word("LIMIT"), Word(Digits(a)), Word("OFFSET"), Word(Digits(b))]
  {
    LimitWord();
    OffsetWord();
    Gaps();
    NumberRead(a);
    LexLast(b);
    hide *;
    var tail := gap + "OFFSET" + " " + (Digits(b) + BREAK);
    LexKeyword(gap, "OFFSET", " ", Digits(b) + BREAK);
    LexWord(Digits(a), tail);
    LexLeading("LIMIT", " ", Digits(a) + tail);
    ThreeTokens(Word("LIMIT"), Word(Digits(a)), Word("OFFSET"), [Word(Digits(b))]);
  }

  lemma LexLimit(dialect: Dialect, limit: int, offset: int)
    ensures Lex(LimitSection(dialect, limit, offset)) == LimitTokens(dialect, limit, offset)
  {
    if limit > 0 {
      LexLine(dialect, limit, offset);
      LexBreak();
      LexGap(BREAK, LimitLine(dialect, limit, offset));
    }
  }

  lemma LexLine(dialect: Dialect, limit: nat, offset: int)
    requires limit > 0
    ensures Lex(LimitLine(dialect, limit, offset)) == LimitTokens(dialect, limit, offset)
  {
    Gaps();
    LexBreak();
    hide Lex, Digits, BREAK, Pad;
    if offset <= 0 {
      LexOneNumber(limit);
      if dialect == Postgres { LexTwoBreaks(limit); }
    } else {
      match dialect {
        case MySQL => LexCommaForm(offset, limit);
        case Postgres => LexOffsetForm(limit, BREAK, offset);
        case SQLite => LexOffsetForm(limit, " ", offset);
      }
    }
  }

  lemma LexTwoBreaks(n: nat)
    ensures Lex("LIMIT" + " " + (Digits(n) + (BREAK + BREAK))) == [Word("LIMIT"), Word(Digits(n))]
  {
    LimitWord();
    NumberRead(n);
    LexBreak();
    LexGap(BREAK, BREAK);
    hide *;
    LexWord(Digits(n), BREAK + BREAK);
    LexLeading("LIMIT", " ", Digits(n) + (BREAK + BREAK));
  }

  /** The three dialects write one window: the offset is left out at 0, and has no effect without a limit. */
  lemma LimitDenotesWindow(dialect: Dialect, limit: int, offset: int)
    ensures ReadLimit(dialect, Lex(LimitSection(dialect, limit, offset))) == Some(WindowOf(limit, offset))
  {
    LexLimit(dialect, limit, offset);
    if limit > 0 {
      NumberRead(limit);
      if offset > 0 { NumberRead(offset); }
      hide Digits, Lex, ReadNumber, LimitSection;
    }
  }

  // ----- the whole text -----

  function WhereSection(where: string): string { if where == "" then "" else BREAK + "WHERE" + " " + (where + BREAK) }

  function GroupSection(groupBys: string): string {
    if groupBys == "" then "" else BREAK + "GROUP" + " " + ("BY" + " " + (groupBys + BREAK))
  }

  /** No columns are written as all of them. */
  function ColumnsText(columns: seq<string>): string { if columns == [] then "*" else Join(columns, ", ") }

  /** driver_mysql.go:130-146, driver_postgres.go:109-126, driver_sqlite.go:101-117; HAVING and ORDER BY are never asked for. */
  function SelectText(dialect: Dialect, columns: seq<string>, table: string, where: string, groupBys: string,
                      limit: int, offset: int): string {
    "SELECT" + " " + (ColumnsText(columns) + (BREAK + "FROM" + " " + (table + (BREAK + (WhereSection(where) + (BREAK
      + (GroupSection(groupBys) + (BREAK + (BREAK + (BREAK + LimitSection(dialect, limit, offset)))))))))))
  }

  /** COUNT in any letter case. */
  predicate IsCountWord(w: string) { |w| == 5 && forall i :: 0 <= i < 5 ==> UpperChar(w[i]) == "COUNT"[i] }

  predicate IsCountText(c: string) { |c| == 8 && IsCountWord(c[..5]) && c[5] == '(' && (c[6] == '*' || c[6] == '1') && c[7] == ')' }

  /** The row count: COUNT(*) or COUNT(1), in any letter case. */
  predicate IsCount(columns: seq<string>) { |columns| == 1 && IsCountText(columns[0]) }

  /** The selections whose tokens are known: names, `*`, or a row count. */
  predicate IsSelection(columns: seq<string>) {
    columns == [] || columns == ["*"] || IsCount(columns) || (AllNames(columns) && Word("FROM") !in NameTokens(columns))
  }

  function CountTokens(word: string, star: string): seq<Token> { [Word(word), LParen, Word(star), RParen] }

  function SelectionTokens(columns: seq<string>): seq<Token> {
    if columns == [] || columns == ["*"] then [Word("*")]
    else if IsCount(columns) then CountTokens(columns[0][..5], columns[0][6..7])
    else NameTokens(columns)
  }

  lemma StarWord()
    ensures IsWord("*") && IsWord("1")
  {
    assert IsPlainWord("*") && IsPlainWord("1");
    hide IsWord;
    PlainIsWord("*");
    PlainIsWord("1");
  }

  lemma CountIsWord(w: string)
    requires IsCountWord(w)
    ensures IsWord(w)
  {
    assert "COUNT" == ['C', 'O', 'U', 'N', 'T'];
    assert IsPlainWord(w);
    hide IsWord;
    PlainIsWord(w);
  }

  lemma LexCount(word: string, star: string, rest: string)
    requires IsWord(word) && IsWord(star)
    ensures Lex(word + ("(" + (star + (")" + rest)))) == CountTokens(word, star) + Lex(rest)
  {
    LexMark(')', rest);
    LexMark('(', star + (")" + rest));
    assert Mark('(') == LParen && Mark(')') == RParen;
    hide *;
    LexWord(star, ")" + rest);
    LexWord(word, "(" + (star + (")" + rest)));
    JoinCount(word, star, Lex(rest));
  }

  lemma JoinCount(word: string, star: string, rest: seq<Token>)
    ensures [Word(word)] + ([LParen] + ([Word(star)] + ([RParen] + rest))) == CountTokens(word, star) + rest
  {
  }

  lemma CountSplit(c: string, rest: string)
    requires IsCountText(c)
    ensures c + rest == c[..5] + ("(" + (c[6..7] + (")" + rest)))
    ensures c[6..7] == "*" || c[6..7] == "1"
  {
    hide IsCountWord;
    assert c == c[..5] + "(" + c[6..7] + ")";
  }

  lemma LexCountText(c: string, rest: string)
    requires IsCountText(c)
    ensures Lex(c + rest) == CountTokens(c[..5], c[6..7]) + Lex(rest)
  {
    StarWord();
    CountIsWord(c[..5]);
    hide Lex, IsWord, IsCountWord, IsPlainWord;
    CountSplit(c, rest);
    LexCount(c[..5], c[6..7], rest);
  }

  lemma LexSelection(columns: seq<string>, rest: string)
    requires IsSelection(columns) && Bounded(rest)
    ensures Lex(ColumnsText(columns) + rest) == SelectionTokens(columns) + Lex(rest)
  {
    StarWord();
    hide Lex, IsWord, Bounded, NameTokens, AllNames, IsCountText;
    if columns == [] || columns == ["*"] {
      LexWord("*", rest);
    } else if IsCount(columns) {
      LexCountText(columns[0], rest);
    } else {
      LexNameList(columns, ", ", rest);
    }
  }

  function WhereTokens(d: Option<Doc>): seq<Token> { if d == None then [] else [Word("WHERE")] + DocTokens(d.value) }

  function GroupTokens(groupBys: string): seq<Token> {
    if groupBys == "" then [] else [Word("GROUP"), Word("BY")] + Lex(groupBys)
  }

  lemma WhereWord()
    ensures IsPlainWord("WHERE")
  {
  }

  lemma GroupWords()
    ensures IsPlainWord("GROUP") && IsPlainWord("BY")
  {
  }

  lemma SelectWords()
    ensures IsPlainWord("SELECT") && IsPlainWord("FROM")
  {
  }

  /** A section, and the break behind it. */
  lemma LexWhere(d: Option<Doc>, rest: string)
    requires d.Some? ==> WellFormed(d.value)
    ensures Lex(WhereSection(MaybeText(d)) + (BREAK + rest)) == WhereTokens(d) + Lex(rest)
    ensures Bounded(WhereSection(MaybeText(d)) + (BREAK + rest))
  {
    Gaps();
    LexBreak();
    LexGap(BREAK, rest);
    var tail := BREAK + rest;
    if d == None {
      assert WhereSection("") + tail == tail && [] + Lex(rest) == Lex(rest);
    } else {
      TextNonempty(d.value);
      WhereWord();
      LexGap(BREAK, tail);
      LexDoc(d.value, BREAK + tail);
      LexKeyword(BREAK, "WHERE", " ", Text(d.value) + (BREAK + tail));
      WhereSplit(Text(d.value), tail);
      Regroup([Word("WHERE")], DocTokens(d.value), Lex(rest));
      hide *;
    }
  }

  lemma WhereSplit(where: string, tail: string)
    ensures BREAK + "WHERE" + " " + (where + BREAK) + tail == BREAK + "WHERE" + " " + (where + (BREAK + tail))
  {
    Regroup(where, BREAK, tail);
    Regroup(BREAK + "WHERE" + " ", where + BREAK, tail);
  }

  lemma LexGroup(groupBys: string, rest: string)
    requires Closed(groupBys)
    ensures Lex(GroupSection(groupBys) + (BREAK + rest)) == GroupTokens(groupBys) + Lex(rest)
    ensures Bounded(GroupSection(groupBys) + (BREAK + rest))
  {
    Gaps();
    LexBreak();
    LexGap(BREAK, rest);
    var tail := BREAK + rest;
    if groupBys == "" {
      assert GroupSection("") + tail == tail && [] + Lex(rest) == Lex(rest);
    } else {
      GroupWords();
      LexGap(BREAK, tail);
      LexThen(groupBys, BREAK + tail);
      LexLeading("BY", " ", groupBys + (BREAK + tail));
      LexKeyword(BREAK, "GROUP", " ", "BY" + " " + (groupBys + (BREAK + tail)));
      GroupSplit(groupBys, tail);
      TwoTokens(Word("GROUP"), Word("BY"), Lex(groupBys) + Lex(rest));
      Regroup([Word("GROUP"), Word("BY")], Lex(groupBys), Lex(rest));
      hide *;
    }
  }

  lemma GroupSplit(groupBys: string, tail: string)
    ensures BREAK + "GROUP" + " " + ("BY" + " " + (groupBys + BREAK)) + tail
            == BREAK + "GROUP" + " " + ("BY" + " " + (groupBys + (BREAK + tail)))
  {
    Regroup(groupBys, BREAK, tail);
    Regroup("BY" + " ", groupBys + BREAK, tail);
    Regroup(BREAK + "GROUP" + " ", "BY" + " " + (groupBys + BREAK), tail);
  }

  lemma LexSelect(dialect: Dialect, columns: seq<string>, table: string, d: Option<Doc>, groupBys: string, limit: int, offset: int)
    requires IsSelection(columns) && IsName(table) && (d.Some? ==> WellFormed(d.value)) && Closed(groupBys)
    ensures Lex(SelectText(dialect, columns, table, MaybeText(d), groupBys, limit, offset))
            == [Word("SELECT")] + (SelectionTokens(columns) + ([Word("FROM")] + ([Word(table)]
               + (WhereTokens(d) + (GroupTokens(groupBys) + LimitTokens(dialect, limit, offset))))))
  {
    Gaps();
    LexBreak();
    SelectWords();
    NameSolid(table);
    LexLimit(dialect, limit, offset);
    hide Lex, BREAK, Pad, IsPlainWord, IsName, IsSelection, ColumnsText, WhereSection, GroupSection, LimitSection, MaybeText,
         SelectionTokens, WhereTokens, GroupTokens, LimitTokens, Bounded, WellFormed, Closed, IsWord;
    var limits := LimitSection(dialect, limit, offset);
    LexGap(BREAK, limits);
    LexGap(BREAK, BREAK + limits);
    var groups := GroupSection(groupBys) + (BREAK + (BREAK + (BREAK + limits)));
    LexGroup(groupBys, BREAK + (BREAK + limits));
    var wheres := WhereSection(MaybeText(d)) + (BREAK + groups);
    LexWhere(d, groups);
    LexGap(BREAK, wheres);
    LexWord(table, BREAK + wheres);
    LexKeyword(BREAK, "FROM", " ", table + (BREAK + wheres));
    LexSelection(columns, BREAK + "FROM" + " " + (table + (BREAK + wheres)));
    LexLeading("SELECT", " ", ColumnsText(columns) + (BREAK + "FROM" + " " + (table + (BREAK + wheres))));
  }

  // ----- reading -----

  lemma {:induction false} BeforeIs(a: seq<Token>, w: string, rest: seq<Token>)
    requires Word(w) !in a && (rest == [] || rest[0] == Word(w))
    ensures Before(a + rest, w) == |a|
  {
    if a == [] {
      assert a + rest == rest;
    } else {
      assert (a + rest)[1..] == a[1..] + rest;
      BeforeIs(a[1..], w, rest);
    }
  }

  lemma ReadLimitBack(dialect: Dialect, limit: int, offset: int)
    ensures ReadLimit(dialect, LimitTokens(dialect, limit, offset)) == Some(WindowOf(limit, offset))
  {
    LexLimit(dialect, limit, offset);
    LimitDenotesWindow(dialect, limit, offset);
  }

  /** What ends a query: nothing, a limit or a grouping. */
  predicate Ends(ts: seq<Token>) { ts == [] || ts[0] == Word("LIMIT") || ts[0] == Word("GROUP") }

  lemma ReadTailBack(dialect: Dialect, groupBys: string, limit: int, offset: int)
    requires Word("LIMIT") !in Lex(groupBys)
    ensures var ts := GroupTokens(groupBys) + LimitTokens(dialect, limit, offset);
            && Ends(ts)
            && ReadTail(dialect, ts) == Some((if groupBys == "" then [] else Lex(groupBys), WindowOf(limit, offset)))
  {
    var limits := LimitTokens(dialect, limit, offset);
    ReadLimitBack(dialect, limit, offset);
    assert limits == [] || limits[0] == Word("LIMIT");
    if groupBys == "" {
      assert [] + limits == limits;
      hide ReadLimit, Digits, LimitTokens, Lex;
    } else {
      assert GroupTokens(groupBys) == [Word("GROUP"), Word("BY")] + Lex(groupBys);
      hide *;
      ReadGroup(dialect, Lex(groupBys), limits, WindowOf(limit, offset));
    }
  }

  lemma ReadGroup(dialect: Dialect, group: seq<Token>, limits: seq<Token>, w: Window)
    requires Word("LIMIT") !in group && (limits == [] || limits[0] == Word("LIMIT")) && ReadLimit(dialect, limits) == Some(w)
    ensures var ts := [Word("GROUP"), Word("BY")] + group + limits; Ends(ts) && ReadTail(dialect, ts) == Some((group, w))
  {
    hide ReadLimit;
    var ts := [Word("GROUP"), Word("BY")] + group + limits;
    assert ts[0] == Word("GROUP") && ts[1] == Word("BY") && ts[2..] == group + limits;
    BeforeIs(group, "LIMIT", limits);
    assert ts[2..2 + |group|] == group && ts[2 + |group|..] == limits;
  }

  lemma ReadCond(d: Doc, rest: seq<Token>)
    requires WellFormed(d) && Ends(rest)
    ensures ReadOr(DocTokens(d) + rest, Args(d)) == Ok([Tree(d)], rest, [])
  {
    assert Args(d) + [] == Args(d);
    ReadDoc(d, rest, []);
    hide ReadFactor, WellFormed, DocTokens;
    assert ReadAnd(DocTokens(d) + rest, Args(d)) == Ok([Tree(d)], rest, []);
  }

  lemma NoFrom(columns: seq<string>)
    requires IsSelection(columns)
    ensures Word("FROM") !in SelectionTokens(columns)
  {
    assert |"FROM"| == 4;
  }

  /** Columns and table in front of the rest. */
  lemma ReadFront(dialect: Dialect, columns: seq<Token>, table: string, rest: seq<Token>, args: seq<Value>, cond: Option<Cond>,
                  left: seq<Token>, group: seq<Token>, w: Window)
    requires Word("FROM") !in columns && IsName(table) && ReadTail(dialect, left) == Some((group, w))
    requires if cond == None then rest == left && args == [] && Ends(rest)
             else rest != [] && rest[0] == Word("WHERE") && ReadOr(rest[1..], args) == Ok([cond.value], left, [])
    ensures ReadSelect(dialect, [Word("SELECT")] + (columns + ([Word("FROM")] + ([Word(table)] + rest))), args)
            == Some(Select(columns, table, cond, group, w))
  {
    hide IsName, ReadTail, ReadOr;
    var tail := [Word("FROM")] + ([Word(table)] + rest);
    var ts := [Word("SELECT")] + (columns + tail);
    assert ts[0] == Word("SELECT") && ts[1..] == columns + tail;
    BeforeIs(columns, "FROM", tail);
    FrontSlices(Word("SELECT"), columns, Word("FROM"), Word(table), rest);
  }

  lemma FrontSlices(a: Token, columns: seq<Token>, b: Token, c: Token, rest: seq<Token>)
    ensures var ts, n := [a] + (columns + ([b] + ([c] + rest))), 1 + |columns|;
            |ts| >= n + 2 && ts[1..n] == columns && ts[n + 1] == c && ts[n + 2..] == rest
  {
    var ts := [a] + (columns + ([b] + ([c] + rest)));
    assert ts == [a] + columns + [b, c] + rest;
  }

  lemma NoGroup()
    ensures Closed("") && Lex("") == []
  {
  }

  /**
   The final text of a query, read as SQL with its arguments from left to right, selects the columns from the table
   under the condition of the filters, for the window of limit and offset. An order that was asked for is read as a
   grouping.
   */
  lemma SelectReads(dialect: Dialect, columns: seq<string>, table: string, d: Option<Doc>, groupBys: string, limit: int, offset: int)
    requires IsSelection(columns) && IsName(table) && (d.Some? ==> WellFormed(d.value))
    requires Closed(groupBys) && Word("LIMIT") !in Lex(groupBys)
    requires MarkerSafe(SelectText(dialect, columns, table, MaybeText(d), groupBys, limit, offset))
    ensures ReadSelect(dialect, Lex(Formatted(SelectText(dialect, columns, table, MaybeText(d), groupBys, limit, offset))), MaybeArgs(d))
            == Some(Select(SelectionTokens(columns), table, if d == None then None else Some(Tree(d.value)),
                           if groupBys == "" then [] else Lex(groupBys), WindowOf(limit, offset)))
  {
    FormattedKeepsTokens(SelectText(dialect, columns, table, MaybeText(d), groupBys, limit, offset));
    LexSelect(dialect, columns, table, d, groupBys, limit, offset);
    hide *;
    ReadPieces(dialect, columns, table, d, groupBys, limit, offset);
  }

  lemma ReadPieces(dialect: Dialect, columns: seq<string>, table: string, d: Option<Doc>, groupBys: string, limit: int, offset: int)
    requires IsSelection(columns) && IsName(table) && (d.Some? ==> WellFormed(d.value)) && Word("LIMIT") !in Lex(groupBys)
    ensures ReadSelect(dialect, [Word("SELECT")] + (SelectionTokens(columns) + ([Word("FROM")] + ([Word(table)]
                         + (WhereTokens(d) + (GroupTokens(groupBys) + LimitTokens(dialect, limit, offset)))))), MaybeArgs(d))
            == Some(Select(SelectionTokens(columns), table, if d == None then None else Some(Tree(d.value)),
                           if groupBys == "" then [] else Lex(groupBys), WindowOf(limit, offset)))
  {
    ReadTailBack(dialect, groupBys, limit, offset);
    NoFrom(columns);
    var left := GroupTokens(groupBys) + LimitTokens(dialect, limit, offset);
    var group := if groupBys == "" then [] else Lex(groupBys);
    if d == None {
      assert [] + left == left;
      hide Lex, ReadSelect, ReadTail, IsName, IsSelection, SelectionTokens, GroupTokens, LimitTokens, Ends;
      ReadFront(dialect, SelectionTokens(columns), table, left, [], None, left, group, WindowOf(limit, offset));
    } else {
      ReadWithCond(dialect, SelectionTokens(columns), table, d.value, left, group, WindowOf(limit, offset));
    }
  }

  lemma ReadWithCond(dialect: Dialect, columns: seq<Token>, table: string, d: Doc, left: seq<Token>, group: seq<Token>, w: Window)
    requires Word("FROM") !in columns && IsName(table) && WellFormed(d) && Ends(left) && ReadTail(dialect, left) == Some((group, w))
    ensures ReadSelect(dialect, [Word("SELECT")] + (columns + ([Word("FROM")] + ([Word(table)] + ([Word("WHERE")] + DocTokens(d) + left)))),
                       Args(d))
            == Some(Select(columns, table, Some(Tree(d)), group, w))
  {
    hide *;
    ReadCond(d, left);
    var rest := [Word("WHERE")] + DocTokens(d) + left;
    assert rest[0] == Word("WHERE") && rest[1..] == DocTokens(d) + left;
    ReadFront(dialect, columns, table, rest, Args(d), Some(Tree(d)), left, group, w);
  }
}
