/** A reader for CREATE TABLE, and what it makes of the statements GenDDL writes. */
module TableReading {
  import opened Strings
  import opened Maps
  import opened Schemas
  import opened SqlText
  import opened SqlTextLaws
  import opened ClosedText
  import opened Tokens
  import opened SqlCondition
  import opened SqlStatement
  import opened WhereProofs
  import opened NameLists
  import opened BatchExec
  import opened Scripts
  import opened Ddl

  // ----- the reader -----

  /** A column: its name as it is written, and the tokens of its type and options. */
  datatype ColumnDef = ColumnDef(name: string, def: seq<Token>)

  datatype Table = Table(name: string, columns: seq<ColumnDef>, key: Option<seq<string>>)

  function Deeper(depth: nat, t: Token): int { if t == LParen then depth + 1 else if t == RParen then depth - 1 else depth }

  /** Tokens up to the first comma or closing parenthesis that belongs to no inner parentheses. */
  function ItemLen(ts: seq<Token>, depth: nat): (n: nat)
    ensures n <= |ts|
    ensures n < |ts| ==> ts[n] == Comma || ts[n] == RParen
  {
    if ts == [] || (depth == 0 && (ts[0] == Comma || ts[0] == RParen)) then 0
    else 1 + ItemLen(ts[1..], Deeper(depth, ts[0]))
  }

  /** The items in parentheses, and what follows them. */
  function ReadItems(ts: seq<Token>): Option<(seq<seq<Token>>, seq<Token>)>
    decreases |ts|
  {
    var n := ItemLen(ts, 0);
    if n == |ts| then None
    else if ts[n] == RParen then Some(([ts[..n]], ts[n + 1..]))
    else
      match ReadItems(ts[n + 1..])
      case None => None
      case Some((items, rest)) => Some(([ts[..n]] + items, rest))
  }

  predicate IsKeyItem(item: seq<Token>) { |item| >= 3 && item[..3] == [Word("PRIMARY"), Word("KEY"), LParen] }

  /** A name and a type. PostgreSQL has no COMMENT in a column. */
  function ReadColumn(d: Dialect, item: seq<Token>): Option<ColumnDef> {
    if |item| < 2 || !item[0].Word? || !IsName(item[0].w) || !item[1].Word? then None
    else if d == Postgres && Word("COMMENT") in item[1..] then None
    else Some(ColumnDef(item[0].w, item[1..]))
  }

  /** Columns, and the key behind them if there is one; a key names at least one column. */
  function ReadLines(d: Dialect, items: seq<seq<Token>>): Option<(seq<ColumnDef>, Option<seq<string>>)> {
    if items == [] then Some(([], None))
    else if |items| == 1 && IsKeyItem(items[0]) then
      match ReadNames(items[0][3..])
      case None => None
      case Some((names, rest)) => if rest == [] then Some(([], Some(names))) else None
    else
      match ReadColumn(d, items[0])
      case None => None
      case Some(c) =>
        match ReadLines(d, items[1..])
        case None => None
        case Some((cs, key)) => Some(([c] + cs, key))
  }

  const CREATE: seq<Token> := [Word("CREATE"), Word("TABLE"), Word("IF"), Word("NOT"), Word("EXISTS")]

  /** CREATE TABLE IF NOT EXISTS name (columns, key) */
  function ReadTable(d: Dialect, ts: seq<Token>): Option<Table> {
    if |ts| < 7 || ts[..5] != CREATE || !ts[5].Word? || !IsName(ts[5].w) || ts[6] != LParen then None
    else
      match ReadItems(ts[7..])
      case None => None
      case Some((items, rest)) =>
        if rest != [] then None else
          match ReadLines(d, items)
          case None => None
          case Some((columns, key)) => Some(Table(ts[5].w, columns, key))
  }

  // ----- what is to be read -----

  function SignTokens(d: Dialect, f: Field): seq<Token> { if d == MySQL && f.isUnsigned then [Word("UNSIGNED")] else [] }

  function AutoTokens(d: Dialect, f: Field): seq<Token> {
    if d == MySQL && f.isAutoIncrement then [Word("AUTO_INCREMENT")] else []
  }

  function NullTokens(d: Dialect, f: Field): seq<Token> {
    if d == SQLite && f.isPrimary then [] else if f.requiredConfig != "" || f.isPrimary then [Word("NOT"), Word("NULL")] else [Word("NULL")]
  }

  function CommentTokens(d: Dialect, f: Field): seq<Token> {
    if d == SQLite || f.title == "" then [] else [Word("COMMENT"), Word("'" + f.title + "'")]
  }

  /** Type and options of a column. */
  function DefTokens(d: Dialect, f: Field): seq<Token> {
    Lex(ColumnType(d, f)) + (SignTokens(d, f) + (NullTokens(d, f) + (AutoTokens(d, f) + CommentTokens(d, f))))
  }

  function ColumnDefs(d: Dialect, fs: seq<Field>): (r: seq<ColumnDef>)
    ensures |r| == |fs|
    ensures forall i :: 0 <= i < |fs| ==> r[i] == ColumnDef(Quoted(d, fs[i].nativeName), DefTokens(d, fs[i]))
  {
    seq(|fs|, i requires 0 <= i < |fs| => ColumnDef(Quoted(d, fs[i].nativeName), DefTokens(d, fs[i])))
  }

  function TableMeant(d: Dialect, table: string, fs: seq<Field>): Table {
    var key := KeyNames(d, fs);
    Table(Quoted(d, table), ColumnDefs(d, fs), if key == [] then None else Some(key))
  }

  // ----- parentheses that match -----

  /** From the given depth back to none, without a comma outside parentheses. */
  predicate Balanced(ts: seq<Token>, depth: nat) {
    if ts == [] then depth == 0
    else if ts[0] == RParen then depth > 0 && Balanced(ts[1..], depth - 1)
    else if ts[0] == Comma then depth > 0 && Balanced(ts[1..], depth)
    else if ts[0] == LParen then Balanced(ts[1..], depth + 1)
    else Balanced(ts[1..], depth)
  }

  lemma {:induction false} BalancedConcat(a: seq<Token>, b: seq<Token>, depth: nat)
    requires Balanced(a, depth) && Balanced(b, 0)
    ensures Balanced(a + b, depth)
  {
    if a == [] {
      assert a + b == b;
    } else {
      assert (a + b)[0] == a[0] && (a + b)[1..] == a[1..] + b;
      BalancedConcat(a[1..], b, if a[0] == RParen then depth - 1 else if a[0] == LParen then depth + 1 else depth);
    }
  }

  lemma {:induction false} BalancedWords(ts: seq<Token>)
    requires forall t :: t in ts ==> t.Word?
    ensures Balanced(ts, 0)
  {
    if ts != [] {
      assert ts[0] in ts;
      BalancedWords(ts[1..]);
    }
  }

  lemma {:induction false} NamesBalanced(ns: seq<string>)
    ensures Balanced(NameTokens(ns) + [RParen], 1)
  {
    var ts := NameTokens(ns) + [RParen];
    if ns == [] {
      assert ts[1..] == [];
    } else if |ns| == 1 {
      assert ts[0] == Word(ns[0]) && ts[1..] == [RParen] && [RParen][1..] == [];
    } else {
      NamesBalanced(ns[1..]);
      assert ts == [Word(ns[0]), Comma] + (NameTokens(ns[1..]) + [RParen]);
      assert ts[1..][0] == Comma && ts[1..][1..] == NameTokens(ns[1..]) + [RParen];
    }
  }

  lemma {:induction false} ItemAhead(item: seq<Token>, depth: nat, rest: seq<Token>)
    requires Balanced(item, depth) && rest != [] && (rest[0] == Comma || rest[0] == RParen)
    ensures ItemLen(item + rest, depth) == |item|
  {
    var ts := item + rest;
    if item == [] {
      assert ts == rest;
    } else {
      assert ts[0] == item[0] && ts[1..] == item[1..] + rest;
      ItemAhead(item[1..], Deeper(depth, item[0]), rest);
    }
  }

  // ----- items -----

  function Commas(items: seq<seq<Token>>): seq<Token> {
    if items == [] then [] else if |items| == 1 then items[0] else items[0] + ([Comma] + Commas(items[1..]))
  }

  lemma ReadOneItem(item: seq<Token>, rest: seq<Token>)
    requires Balanced(item, 0)
    ensures ReadItems(item + ([RParen] + rest)) == Some(([item], rest))
  {
    hide Balanced, ItemLen;
    var ts, n := item + ([RParen] + rest), |item|;
    ItemAhead(item, 0, [RParen] + rest);
    assert ts[..n] == item && ts[n] == RParen && ts[n + 1..] == rest;
  }

  lemma ReadNextItem(item: seq<Token>, more: seq<Token>, items: seq<seq<Token>>, rest: seq<Token>)
    requires Balanced(item, 0) && ReadItems(more) == Some((items, rest))
    ensures ReadItems(item + ([Comma] + more)) == Some(([item] + items, rest))
  {
    hide Balanced, ItemLen;
    var ts, n := item + ([Comma] + more), |item|;
    ItemAhead(item, 0, [Comma] + more);
    assert ts[..n] == item && ts[n] == Comma && ts[n + 1..] == more;
  }

  lemma {:induction false} ReadItemsBack(items: seq<seq<Token>>, rest: seq<Token>)
    requires items != [] && forall i :: 0 <= i < |items| ==> Balanced(items[i], 0)
    ensures ReadItems(Commas(items) + ([RParen] + rest)) == Some((items, rest))
  {
    hide Balanced, ReadItems;
    if |items| == 1 {
      ReadOneItem(items[0], rest);
      assert items == [items[0]];
    } else {
      var more := Commas(items[1..]) + ([RParen] + rest);
      Regroup([Comma], Commas(items[1..]), [RParen] + rest);
      Regroup(items[0], [Comma] + Commas(items[1..]), [RParen] + rest);
      ReadItemsBack(items[1..], rest);
      ReadNextItem(items[0], more, items[1..], rest);
      assert items == [items[0]] + items[1..];
    }
  }

  function LexEach(lines: seq<string>): (r: seq<seq<Token>>)
    ensures |r| == |lines|
    ensures forall i :: 0 <= i < |lines| ==> r[i] == Lex(lines[i])
  {
    seq(|lines|, i requires 0 <= i < |lines| => Lex(lines[i]))
  }

  predicate AllClosed(ss: seq<string>) { forall i :: 0 <= i < |ss| ==> Closed(ss[i]) }

  lemma LexLineEnd(rest: string)
    ensures Lex(",\n" + rest) == [Comma] + Lex(rest) && Bounded(",\n" + rest)
  {
    assert Pad("\n");
    LexGap("\n", rest);
    LexMark(',', "\n" + rest);
    assert ",\n" + rest == "," + ("\n" + rest) by { assert ",\n" == "," + "\n"; Regroup(",", "\n", rest); }
  }

  lemma {:induction false} LexLines(lines: seq<string>, rest: string)
    requires lines != [] && AllClosed(lines) && Bounded(rest)
    ensures Lex(Join(lines, ",\n") + rest) == Commas(LexEach(lines)) + Lex(rest)
  {
    hide Lex, Closed, Bounded;
    if |lines| == 1 {
      LexThen(lines[0], rest);
    } else {
      var tail := Join(lines[1..], ",\n") + rest;
      LexLines(lines[1..], rest);
      LexLineEnd(tail);
      LexThen(lines[0], ",\n" + tail);
      JoinStep(lines, ",\n", rest);
      assert LexEach(lines)[1..] == LexEach(lines[1..]);
      Regroup([Comma], Commas(LexEach(lines[1..])), Lex(rest));
      Regroup(Lex(lines[0]), [Comma] + Commas(LexEach(lines[1..])), Lex(rest));
    }
  }

  // ----- columns -----

  /** A type that is one item of a column list, and begins with a word. */
  predicate TypeFits(t: string) {
    Lex(t) != [] && Lex(t)[0].Word? && Balanced(Lex(t), 0) && Word("COMMENT") !in Lex(t)
  }

  /** A field whose names and type can be read back. */
  predicate Legible(d: Dialect, f: Field) {
    && CleanField(f) && IsName(Quoted(d, f.nativeName)) && (d == SQLite && f.isPrimary ==> IsName(f.nativeName))
    && (TrimSpace(f.nativeType) != "" ==> TypeFits(TrimSpace(f.nativeType)))
  }

  predicate AllLegible(d: Dialect, fs: seq<Field>) { forall i :: 0 <= i < |fs| ==> Legible(d, fs[i]) && Typed(d, fs[i]) }

  lemma OneWordFits(w: string)
    requires IsPlainWord(w) && w != "COMMENT"
    ensures TypeFits(w)
  {
    PlainIsWord(w);
    LexOneWord(w);
    BalancedWords([Word(w)]);
  }

  lemma TwoWordsFit(a: string, b: string)
    requires IsPlainWord(a) && IsPlainWord(b) && a != "COMMENT" && b != "COMMENT"
    ensures TypeFits(a + " " + b)
  {
    Gaps();
    PlainIsWord(b);
    LexOneWord(b);
    LexLeading(a, " ", b);
    BalancedWords([Word(a), Word(b)]);
  }

  lemma BalancedCall(a: Token, n: Token)
    requires a.Word? && n.Word?
    ensures Balanced([a, LParen, n, RParen], 0)
  {
    var ts := [a, LParen, n, RParen];
    assert ts[1..] == [LParen, n, RParen] && ts[1..][1..] == [n, RParen] && ts[1..][1..][1..] == [RParen] && [RParen][1..] == [];
    assert Balanced([RParen], 1);
    assert Balanced([n, RParen], 1);
    assert Balanced([LParen, n, RParen], 0);
  }

  lemma Marks()
    ensures Lex("") == [] && IsDelimiter(')') && IsDelimiter('(') && !IsSpace(')') && !IsSpace('(')
    ensures Mark(')') == RParen && Mark('(') == LParen
  {
  }

  lemma CallSplit(a: string, n: string)
    ensures a + "(" + n + ")" == a + ("(" + (n + (")" + "")))
  {
  }

  lemma LexCall(a: string, n: string)
    requires IsPlainWord(a) && IsPlainWord(n)
    ensures Lex(a + "(" + n + ")") == [Word(a), LParen, Word(n), RParen]
  {
    hide *;
    PlainIsWord(a);
    PlainIsWord(n);
    Marks();
    CallSplit(a, n);
    LexMark(')', "");
    LexWord(n, ")" + "");
    LexMark('(', n + (")" + ""));
    LexWord(a, "(" + (n + (")" + "")));
    assert [Word(a)] + ([LParen] + ([Word(n)] + ([RParen] + []))) == [Word(a), LParen, Word(n), RParen];
  }

  lemma CallFits(a: string, n: string)
    requires IsPlainWord(a) && IsPlainWord(n) && a != "COMMENT" && n != "COMMENT"
    ensures TypeFits(a + "(" + n + ")")
  {
    hide Lex, IsPlainWord, Balanced;
    LexCall(a, n);
    BalancedCall(Word(a), Word(n));
  }

  lemma FourWordsFit(a: string, b: string, c: string, e: string)
    requires IsPlainWord(a) && IsPlainWord(b) && IsPlainWord(c) && IsPlainWord(e)
    requires a != "COMMENT" && b != "COMMENT" && c != "COMMENT" && e != "COMMENT"
    ensures TypeFits(a + " " + (b + " " + (c + " " + e)))
  {
    Gaps();
    PlainIsWord(e);
    LexOneWord(e);
    LexLeading(c, " ", e);
    LexLeading(b, " ", c + " " + e);
    LexLeading(a, " ", b + " " + (c + " " + e));
    BalancedWords([Word(a), Word(b), Word(c), Word(e)]);
    assert [Word(a)] + ([Word(b)] + ([Word(c)] + [Word(e)])) == [Word(a), Word(b), Word(c), Word(e)];
  }

  lemma TextTypes()
    ensures TypeFits("TEXT") && TypeFits("REAL")
  {
    assert IsPlainWord("TEXT") && IsPlainWord("REAL");
    hide TypeFits, IsPlainWord;
    OneWordFits("TEXT");
    OneWordFits("REAL");
  }

  lemma WholeTypes()
    ensures TypeFits("BIGINT") && TypeFits("BIGSERIAL")
  {
    assert IsPlainWord("BIGINT") && IsPlainWord("BIGSERIAL") && "BIGINT" != "COMMENT" && "BIGSERIAL" != "COMMENT";
    hide *;
    OneWordFits("BIGINT");
    OneWordFits("BIGSERIAL");
  }

  lemma SmallTypes()
    ensures TypeFits("INTEGER") && TypeFits("BOOLEAN")
  {
    assert IsPlainWord("INTEGER") && IsPlainWord("BOOLEAN");
    assert "INTEGER"[0] != "COMMENT"[0] && "BOOLEAN"[0] != "COMMENT"[0];
    hide TypeFits, IsPlainWord;
    OneWordFits("INTEGER");
    OneWordFits("BOOLEAN");
  }

  lemma FloatWords()
    ensures IsPlainWord("DOUBLE") && IsPlainWord("PRECISION")
  {
  }

  lemma FloatTypes()
    ensures TypeFits("DOUBLE") && TypeFits("DOUBLE PRECISION")
  {
    FloatWords();
    assert "DOUBLE" != "COMMENT" && "PRECISION" != "COMMENT" && "DOUBLE" + " " + "PRECISION" == "DOUBLE PRECISION";
    hide *;
    OneWordFits("DOUBLE");
    TwoWordsFit("DOUBLE", "PRECISION");
  }

  lemma CallTypes()
    ensures TypeFits("TINYINT(1)")
  {
    assert IsPlainWord("TINYINT") && IsPlainWord("1");
    assert "TINYINT"[0] != "COMMENT"[0];
    assert "TINYINT" + "(" + "1" + ")" == "TINYINT(1)";
    hide TypeFits, IsPlainWord;
    CallFits("TINYINT", "1");
  }

  lemma DateTypes()
    ensures TypeFits("DATETIME") && TypeFits("DATETIME(3)")
  {
    assert IsPlainWord("DATETIME") && IsPlainWord("3");
    assert "DATETIME" + "(" + "3" + ")" == "DATETIME(3)";
    hide TypeFits, IsPlainWord;
    OneWordFits("DATETIME");
    CallFits("DATETIME", "3");
  }

  lemma ZoneWords()
    ensures IsPlainWord("TIMESTAMP") && IsPlainWord("WITH")
  {
  }

  lemma MoreZoneWords()
    ensures IsPlainWord("TIME") && IsPlainWord("ZONE")
  {
  }

  lemma ZoneType()
    ensures TypeFits("TIMESTAMP WITH TIME ZONE")
  {
    ZoneWords();
    MoreZoneWords();
    assert "TIMESTAMP" + " " + ("WITH" + " " + ("TIME" + " " + "ZONE")) == "TIMESTAMP WITH TIME ZONE";
    hide TypeFits, IsPlainWord;
    FourWordsFit("TIMESTAMP", "WITH", "TIME", "ZONE");
  }

  /** The types of the drivers are always fine. */
  lemma DefaultFits(d: Dialect, f: Field)
    requires DefaultType(d, f) != ""
    ensures TypeFits(DefaultType(d, f))
  {
    hide TypeFits;
    TextTypes();
    WholeTypes();
    SmallTypes();
    FloatTypes();
    CallTypes();
    DateTypes();
    ZoneType();
  }

  // ----- the tokens of a column -----

  function Flat(ps: seq<string>): string { if ps == [] then "" else ps[0] + Flat(ps[1..]) }

  function LexAll(ps: seq<string>): seq<Token> { if ps == [] then [] else Lex(ps[0]) + LexAll(ps[1..]) }

  /** Pieces of closed text, each of which begins with a delimiter if it is there at all. */
  predicate Joinable(ps: seq<string>) { forall i :: 0 <= i < |ps| ==> Closed(ps[i]) && Bounded(ps[i]) }

  lemma {:induction false} LexFlat(ps: seq<string>)
    requires Joinable(ps)
    ensures Lex(Flat(ps)) == LexAll(ps) && Bounded(Flat(ps))
  {
    hide Closed;
    if ps == [] {
      assert Lex("") == [];
    } else {
      LexFlat(ps[1..]);
      hide Lex;
      LexThen(ps[0], Flat(ps[1..]));
    }
  }

  /** The pieces of a column behind its name. */
  function Pieces(d: Dialect, f: Field): seq<string> {
    [TypeText(d, f), SignText(d, f), Nullness(d, f), AutoText(d, f), Comment(d, f)]
  }

  function TypeText(d: Dialect, f: Field): string { "\t" + ColumnType(d, f) }

  function SignText(d: Dialect, f: Field): string { if d == MySQL && f.isUnsigned then " UNSIGNED" else "" }

  function AutoText(d: Dialect, f: Field): string { if d == MySQL && f.isAutoIncrement then " AUTO_INCREMENT" else "" }

  lemma ColumnIsPieces(d: Dialect, f: Field)
    ensures ColumnText(d, f) == Quoted(d, f.nativeName) + Flat(Pieces(d, f))
  {
    hide Quoted, ColumnType, Nullness, Comment;
    var q, t := Quoted(d, f.nativeName), TypeText(d, f);
    var ps := Pieces(d, f);
    FlatFive(t, ps[1], ps[2], ps[3], ps[4]);
    Regroup(q, t + ps[1] + ps[2] + ps[3], ps[4]);
  }

  lemma FlatFive(a: string, b: string, c: string, e: string, g: string)
    ensures Flat([a, b, c, e, g]) == a + b + c + e + g
  {
    var ps := [a, b, c, e, g];
    assert ps[1..] == [b, c, e, g] && [b, c, e, g][1..] == [c, e, g] && [c, e, g][1..] == [e, g] && [e, g][1..] == [g] && [g][1..] == [];
    assert Flat([g]) == g + "" == g;
    assert Flat([e, g]) == e + g && Flat([c, e, g]) == c + (e + g) && Flat([b, c, e, g]) == b + (c + (e + g));
    Regroup(c, e, g);
    Regroup(b, c + e, g);
    Regroup(b, c, e);
    Regroup(a, b + c + e, g);
    Regroup(a, b + c, e);
    Regroup(a, b, c);
  }

  lemma LexSpacedWord(w: string)
    requires IsPlainWord(w)
    ensures Lex(" " + w) == [Word(w)] && Closed(" " + w) && Bounded(" " + w)
  {
    Gaps();
    PlainIsWord(w);
    LexOneWord(w);
    LexGap(" ", w);
    assert forall c :: c in " " + w ==> c == ' ' || c in w;
    ClosedPlain(" " + w);
  }

  lemma LexNothing()
    ensures Lex("") == [] && Closed("") && Bounded("")
  {
  }

  lemma LexUnsigned()
    ensures Lex(" UNSIGNED") == [Word("UNSIGNED")] && Closed(" UNSIGNED") && Bounded(" UNSIGNED")
  {
    assert IsPlainWord("UNSIGNED") && " " + "UNSIGNED" == " UNSIGNED";
    hide *;
    LexSpacedWord("UNSIGNED");
  }

  lemma AutoWord()
    ensures IsPlainWord("AUTO_INCREMENT") && " " + "AUTO_INCREMENT" == " AUTO_INCREMENT"
  {
  }

  lemma LexAuto()
    ensures Lex(" AUTO_INCREMENT") == [Word("AUTO_INCREMENT")] && Closed(" AUTO_INCREMENT") && Bounded(" AUTO_INCREMENT")
  {
    AutoWord();
    hide *;
    LexSpacedWord("AUTO_INCREMENT");
  }

  lemma NullWords()
    ensures IsPlainWord("NOT") && IsPlainWord("NULL") && " " + "NULL" == " NULL" && " " + "NOT" == " NOT" && " NOT" != ""
  {
  }

  lemma NotNullSplit()
    ensures " NOT" + " NULL" == " NOT NULL"
  {
  }

  lemma LexNull()
    ensures Lex(" NULL") == [Word("NULL")] && Closed(" NULL") && Bounded(" NULL")
    ensures Lex(" NOT NULL") == [Word("NOT"), Word("NULL")] && Closed(" NOT NULL") && Bounded(" NOT NULL")
  {
    hide *;
    NullWords();
    LexSpacedWord("NULL");
    LexSpacedWord("NOT");
    LexTwoPieces(" NOT", " NULL", Word("NOT"), Word("NULL"));
    NotNullSplit();
  }

  lemma LexTwoPieces(a: string, b: string, s: Token, t: Token)
    requires Closed(a) && Bounded(a) && a != "" && Closed(b) && Bounded(b) && Lex(a) == [s] && Lex(b) == [t]
    ensures Lex(a + b) == [s, t] && Closed(a + b) && Bounded(a + b)
  {
    hide *;
    LexThen(a, b);
    ClosedConcat(a, b);
    BoundedConcat(a, b);
  }

  lemma BoundedConcat(a: string, b: string)
    requires Bounded(a) && a != ""
    ensures Bounded(a + b)
  {
  }

  lemma CommentWord()
    ensures IsPlainWord("COMMENT") && " " + "COMMENT" == " COMMENT" && " COMMENT" != "" && " COMMENT" + " " == " COMMENT "
  {
  }

  lemma LexComment(title: string)
    requires Clean(title)
    ensures var s := " COMMENT " + ("'" + title + "'");
            Lex(s) == [Word("COMMENT"), Word("'" + title + "'")] && Closed(s) && Bounded(s)
  {
    hide *;
    var w := "'" + title + "'";
    LiteralIsWord(title);
    CommentWord();
    LexSpacedWord("COMMENT");
    LexSpacedLiteral(w);
    LexTwoPieces(" COMMENT", " " + w, Word("COMMENT"), Word(w));
    Regroup(" COMMENT", " ", w);
  }

  lemma LexSpacedLiteral(w: string)
    requires IsWord(w)
    ensures Lex(" " + w) == [Word(w)] && Closed(" " + w) && Bounded(" " + w)
  {
    Gaps();
    SpaceClosed();
    WordIsClosed(w);
    hide *;
    LexOneWord(w);
    LexGap(" ", w);
    ClosedConcat(" ", w);
  }

  lemma SpaceClosed()
    ensures Closed(" ") && Closed("\t") && Bounded("\t")
  {
  }

  lemma WordIsClosed(w: string)
    requires IsWord(w)
    ensures Closed(w)
  {
  }

  lemma LiteralIsWord(title: string)
    requires Clean(title)
    ensures IsWord("'" + title + "'")
  {
    var s := "'" + title + "'";
    assert s[1..|s| - 1] == title;
    LiteralLenIs(s, |s|);
    assert s[|s|..] == "";
  }

  /** The tokens of a column. */
  lemma LexColumn(d: Dialect, f: Field)
    requires Legible(d, f)
    ensures Lex(ColumnText(d, f)) == [Word(Quoted(d, f.nativeName))] + DefTokens(d, f)
  {
    var q := Quoted(d, f.nativeName);
    ColumnIsPieces(d, f);
    NameSolid(q);
    PiecesJoin(d, f);
    hide Quoted, Pieces, Lex, IsWord, Joinable, LexAll, Flat, ColumnText, DefTokens, Legible;
    LexFlat(Pieces(d, f));
    LexWord(q, Flat(Pieces(d, f)));
  }

  lemma PiecesJoin(d: Dialect, f: Field)
    requires CleanField(f)
    ensures Joinable(Pieces(d, f)) && LexAll(Pieces(d, f)) == DefTokens(d, f)
  {
    PiecesAre(d, f);
    hide *;
    TypePiece(d, f);
    NullPiece(d, f);
    CommentPiece(d, f);
    OptionPieces(d, f);
    OnePiece(TypeText(d, f));
    OnePiece(SignText(d, f));
    OnePiece(Nullness(d, f));
    OnePiece(AutoText(d, f));
    OnePiece(Comment(d, f));
    LexFive(TypeText(d, f), SignText(d, f), Nullness(d, f), AutoText(d, f), Comment(d, f));
  }

  lemma PiecesAre(d: Dialect, f: Field)
    ensures Pieces(d, f) == [TypeText(d, f), SignText(d, f), Nullness(d, f), AutoText(d, f), Comment(d, f)]
    ensures DefTokens(d, f)
            == Lex(ColumnType(d, f)) + (SignTokens(d, f) + (NullTokens(d, f) + (AutoTokens(d, f) + CommentTokens(d, f))))
  {
  }

  lemma OptionPieces(d: Dialect, f: Field)
    ensures Lex(SignText(d, f)) == SignTokens(d, f) && Closed(SignText(d, f)) && Bounded(SignText(d, f))
    ensures Lex(AutoText(d, f)) == AutoTokens(d, f) && Closed(AutoText(d, f)) && Bounded(AutoText(d, f))
  {
    hide Lex, Closed, Bounded;
    LexUnsigned();
    LexAuto();
    LexNothing();
  }

  lemma NullPiece(d: Dialect, f: Field)
    ensures Lex(Nullness(d, f)) == NullTokens(d, f) && Closed(Nullness(d, f)) && Bounded(Nullness(d, f))
  {
    hide Lex, Closed, Bounded;
    LexNull();
    LexNothing();
  }

  lemma CommentPiece(d: Dialect, f: Field)
    requires CleanField(f)
    ensures Lex(Comment(d, f)) == CommentTokens(d, f) && Closed(Comment(d, f)) && Bounded(Comment(d, f))
  {
    hide Lex, Closed, Bounded, Clean;
    LexNothing();
    if d != SQLite && f.title != "" { LexComment(f.title); }
  }

  lemma TypePiece(d: Dialect, f: Field)
    requires CleanField(f)
    ensures var s := TypeText(d, f); Lex(s) == Lex(ColumnType(d, f)) && Closed(s) && Bounded(s)
  {
    CleanType(d, f);
    CleanIsNeat(ColumnType(d, f));
    SpaceClosed();
    assert Pad("\t");
    hide Lex, Closed, Bounded, ColumnType, Clean;
    LexGap("\t", ColumnType(d, f));
    ClosedConcat("\t", ColumnType(d, f));
    BoundedConcat("\t", ColumnType(d, f));
  }

  lemma LexFive(a: string, b: string, c: string, e: string, g: string)
    requires Joinable([a]) && Joinable([b]) && Joinable([c]) && Joinable([e]) && Joinable([g])
    ensures Joinable([a, b, c, e, g]) && LexAll([a, b, c, e, g]) == Lex(a) + (Lex(b) + (Lex(c) + (Lex(e) + Lex(g))))
  {
    hide Lex, Closed, Bounded;
    assert [a][0] == a && [b][0] == b && [c][0] == c && [e][0] == e && [g][0] == g;
    var ps := [a, b, c, e, g];
    assert ps[1..] == [b, c, e, g] && [b, c, e, g][1..] == [c, e, g] && [c, e, g][1..] == [e, g] && [e, g][1..] == [g] && [g][1..] == [];
    assert LexAll([g]) == Lex(g) + [] == Lex(g);
    assert LexAll([e, g]) == Lex(e) + Lex(g) && LexAll([c, e, g]) == Lex(c) + (Lex(e) + Lex(g));
    assert LexAll([b, c, e, g]) == Lex(b) + (Lex(c) + (Lex(e) + Lex(g)));
  }

  lemma OnePiece(p: string)
    requires Closed(p) && Bounded(p)
    ensures Joinable([p])
  {
  }

  // ----- the key -----

  lemma KeyWords()
    ensures IsPlainWord("PRIMARY") && IsPlainWord("KEY")
  {
  }

  lemma KeySplit(names: string)
    ensures "PRIMARY KEY (" + names + ")" == "PRIMARY" + " " + ("KEY" + " " + ("(" + (names + (")" + ""))))
  {
    assert "PRIMARY KEY (" == "PRIMARY" + " " + "KEY" + " " + "(";
  }

  function KeyItem(key: seq<string>): seq<Token> { [Word("PRIMARY"), Word("KEY"), LParen] + (NameTokens(key) + [RParen]) }

  lemma LexKey(key: seq<string>)
    requires AllNames(key)
    ensures Lex("PRIMARY KEY (" + Join(key, ",") + ")") == KeyItem(key)
  {
    hide *;
    var names := Join(key, ",");
    KeyWords();
    Gaps();
    Marks();
    KeySplit(names);
    LexMark(')', "");
    LexNameList(key, ",", ")" + "");
    LexMark('(', names + (")" + ""));
    LexLeading("KEY", " ", "(" + (names + (")" + "")));
    LexLeading("PRIMARY", " ", "KEY" + " " + ("(" + (names + (")" + ""))));
    KeyJoin(key);
  }

  lemma KeyJoin(key: seq<string>)
    ensures [Word("PRIMARY")] + ([Word("KEY")] + ([LParen] + (NameTokens(key) + ([RParen] + [])))) == KeyItem(key)
  {
  }

  lemma KeyBalanced(key: seq<string>)
    ensures Balanced(KeyItem(key), 0) && IsKeyItem(KeyItem(key))
  {
    NamesBalanced(key);
    var inner := NameTokens(key) + [RParen];
    var ts := KeyItem(key);
    assert ts[..3] == [Word("PRIMARY"), Word("KEY"), LParen];
    assert ts[1..][0] == Word("KEY") && ts[1..][1..][0] == LParen && ts[1..][1..][1..] == inner;
    assert Balanced(ts[1..][1..], 0);
    assert Balanced(ts[1..], 0);
  }

  /** A key without a name is none. */
  lemma ReadKey(d: Dialect, key: seq<string>)
    requires AllNames(key)
    ensures ReadLines(d, [KeyItem(key)]) == if key == [] then None else Some(([], Some(key)))
  {
    hide IsName;
    KeyBalanced(key);
    assert [KeyItem(key)][0] == KeyItem(key);
    assert KeyItem(key)[3..] == NameTokens(key) + [RParen];
    if key == [] {
      assert NameTokens(key) + [RParen] == [RParen];
    } else {
      ReadNamesBack(key, []);
      assert [RParen] + [] == [RParen];
    }
  }

  // ----- columns read back -----

  function ColumnItem(d: Dialect, f: Field): seq<Token> { [Word(Quoted(d, f.nativeName))] + DefTokens(d, f) }

  function ColumnItems(d: Dialect, fs: seq<Field>): (r: seq<seq<Token>>)
    ensures |r| == |fs| && forall i :: 0 <= i < |fs| ==> r[i] == ColumnItem(d, fs[i])
  {
    seq(|fs|, i requires 0 <= i < |fs| => ColumnItem(d, fs[i]))
  }

  lemma TypeLegible(d: Dialect, f: Field)
    requires Legible(d, f) && Typed(d, f)
    ensures TypeFits(ColumnType(d, f))
  {
    hide TypeFits, DefaultType;
    if TrimSpace(f.nativeType) == "" { DefaultFits(d, f); }
  }

  function OptionTokens(d: Dialect, f: Field): seq<Token> {
    SignTokens(d, f) + (NullTokens(d, f) + (AutoTokens(d, f) + CommentTokens(d, f)))
  }

  lemma OptionsAreWords(d: Dialect, f: Field)
    ensures (forall t :: t in OptionTokens(d, f) ==> t.Word?) && DefTokens(d, f) == Lex(ColumnType(d, f)) + OptionTokens(d, f)
  {
    hide Lex, ColumnType;
  }

  lemma CommentIsSaid(f: Field)
    ensures Word("COMMENT") in OptionTokens(Postgres, f) <==> f.title != ""
  {
    assert "NOT" != "COMMENT" && "NULL" != "COMMENT";
    assert OptionTokens(Postgres, f) == NullTokens(Postgres, f) + CommentTokens(Postgres, f);
  }

  lemma ItemBalanced(d: Dialect, f: Field)
    requires Legible(d, f) && Typed(d, f)
    ensures Balanced(ColumnItem(d, f), 0)
  {
    TypeLegible(d, f);
    OptionsAreWords(d, f);
    BalancedWords(OptionTokens(d, f));
    hide OptionTokens, DefTokens, Lex, ColumnType, Balanced, Quoted;
    BalancedConcat(Lex(ColumnType(d, f)), OptionTokens(d, f), 0);
    WordThenBalanced(Quoted(d, f.nativeName), DefTokens(d, f));
  }

  lemma WordThenBalanced(w: string, ts: seq<Token>)
    requires Balanced(ts, 0)
    ensures Balanced([Word(w)] + ts, 0)
  {
    assert ([Word(w)] + ts)[1..] == ts;
  }

  lemma QuotedIsNoKeyword(d: Dialect, name: string)
    ensures Quoted(d, name) != "PRIMARY"
  {
    assert Quoted(d, name)[0] != 'P';
  }

  /** PostgreSQL has no comment in a column. */
  predicate Commented(d: Dialect, f: Field) { d == Postgres && f.title != "" }

  lemma ReadColumnBack(d: Dialect, f: Field)
    requires Legible(d, f) && Typed(d, f)
    ensures !IsKeyItem(ColumnItem(d, f))
    ensures ReadColumn(d, ColumnItem(d, f))
            == if Commented(d, f) then None else Some(ColumnDef(Quoted(d, f.nativeName), DefTokens(d, f)))
  {
    TypeLegible(d, f);
    OptionsAreWords(d, f);
    CommentIsSaid(f);
    QuotedIsNoKeyword(d, f.nativeName);
    hide OptionTokens, DefTokens, Lex, ColumnType, Quoted, IsName, Balanced;
    var item := ColumnItem(d, f);
    assert item[0] == Word(Quoted(d, f.nativeName)) && item[1..] == DefTokens(d, f);
    assert item[1] == Lex(ColumnType(d, f))[0];
    if |item| >= 3 { assert item[..3][0] == item[0]; }
  }

  predicate NoneCommented(d: Dialect, fs: seq<Field>) { forall i :: 0 <= i < |fs| ==> !Commented(d, fs[i]) }

  lemma {:induction false} ReadColumnsBack(d: Dialect, fs: seq<Field>, last: seq<seq<Token>>)
    requires AllLegible(d, fs)
    ensures ReadLines(d, ColumnItems(d, fs) + last)
            == if !NoneCommented(d, fs) then None
               else
                 match ReadLines(d, last)
                 case None => None
                 case Some((cs, key)) => Some((ColumnDefs(d, fs) + cs, key))
  {
    hide Legible, Typed, ColumnItem, DefTokens, Quoted, IsKeyItem, ReadColumn;
    var read := ReadLines(d, last);
    if fs == [] {
      assert ColumnItems(d, fs) + last == last;
      if read.Some? { assert [] + read.value.0 == read.value.0; }
    } else {
      var items := ColumnItems(d, fs) + last;
      assert items[0] == ColumnItem(d, fs[0]) && items[1..] == ColumnItems(d, fs[1..]) + last;
      ReadColumnBack(d, fs[0]);
      ReadColumnsBack(d, fs[1..], last);
      assert ColumnDefs(d, fs) == [ColumnDefs(d, fs)[0]] + ColumnDefs(d, fs[1..]);
      if read.Some? { Regroup([ColumnDefs(d, fs)[0]], ColumnDefs(d, fs[1..]), read.value.0); }
    }
  }

  // ----- the whole statement -----

  lemma HeadWords()
    ensures IsPlainWord("CREATE") && IsPlainWord("TABLE") && IsPlainWord("IF")
  {
  }

  lemma MoreHeadWords()
    ensures IsPlainWord("NOT") && IsPlainWord("EXISTS")
  {
  }

  lemma HeadSplit(rest: string)
    ensures "CREATE TABLE IF NOT EXISTS " + rest
            == "CREATE" + " " + ("TABLE" + " " + ("IF" + " " + ("NOT" + " " + ("EXISTS" + " " + rest))))
  {
    assert "CREATE TABLE IF NOT EXISTS " == "CREATE" + " " + "TABLE" + " " + "IF" + " " + "NOT" + " " + "EXISTS" + " ";
  }

  lemma LexCreate(rest: string)
    ensures Lex("CREATE TABLE IF NOT EXISTS " + rest) == CREATE + Lex(rest)
  {
    hide *;
    HeadWords();
    MoreHeadWords();
    Gaps();
    HeadSplit(rest);
    LexLeading("EXISTS", " ", rest);
    LexLeading("NOT", " ", "EXISTS" + " " + rest);
    LexLeading("IF", " ", "NOT" + " " + ("EXISTS" + " " + rest));
    LexLeading("TABLE", " ", "IF" + " " + ("NOT" + " " + ("EXISTS" + " " + rest)));
    LexLeading("CREATE", " ", "TABLE" + " " + ("IF" + " " + ("NOT" + " " + ("EXISTS" + " " + rest))));
    CreateJoin(Lex(rest));
  }

  lemma CreateJoin(rest: seq<Token>)
    ensures [Word("CREATE")] + ([Word("TABLE")] + ([Word("IF")] + ([Word("NOT")] + ([Word("EXISTS")] + rest)))) == CREATE + rest
  {
  }

  /** The line break that MySQL and SQLite get inside the parentheses. */
  function Inner(d: Dialect): string { if d == Postgres then "" else "\n" }

  lemma TableSplit(d: Dialect, table: string, lines: seq<string>)
    ensures TableText(d, table, lines)
            == "CREATE TABLE IF NOT EXISTS "
               + (Quoted(d, table) + (" " + ("(" + (Inner(d) + (Join(lines, ",\n") + (Inner(d) + (")" + "")))))))
  {
    hide Quoted, Join;
    var body, q := Join(lines, ",\n"), Quoted(d, table);
    if d == Postgres {
      assert " (" == " " + "(";
      assert " (" + body + ")" == " " + ("(" + (body + ")"));
      assert "" + (body + ("" + (")" + ""))) == body + ")";
    } else {
      assert " (\n" == " " + "(" + "\n" && "\n)" == "\n" + ")";
      assert " (\n" + body + "\n)" == " " + ("(" + ("\n" + (body + ("\n" + (")" + "")))));
    }
    Regroup("CREATE TABLE IF NOT EXISTS ", q, if d == Postgres then " (" + body + ")" else " (\n" + body + "\n)");
  }

  lemma InnerPad(d: Dialect)
    ensures Pad(Inner(d))
  {
  }

  lemma LexTable(d: Dialect, table: string, lines: seq<string>)
    requires IsName(Quoted(d, table)) && lines != [] && AllClosed(lines)
    ensures Lex(TableText(d, table, lines))
            == CREATE + ([Word(Quoted(d, table))] + ([LParen] + (Commas(LexEach(lines)) + ([RParen] + []))))
  {
    NameSolid(Quoted(d, table));
    InnerPad(d);
    Gaps();
    Marks();
    TableSplit(d, table, lines);
    hide *;
    var q, g, body := Quoted(d, table), Inner(d), Join(lines, ",\n");
    var close := g + (")" + "");
    LexMark(')', "");
    LexGap(g, ")" + "");
    BoundedGap(g, ")" + "");
    LexLines(lines, close);
    LexGap(g, body + close);
    LexMark('(', g + (body + close));
    LexGap(" ", "(" + (g + (body + close)));
    LexWord(q, " " + ("(" + (g + (body + close))));
    LexCreate(q + (" " + ("(" + (g + (body + close)))));
  }

  lemma BoundedGap(gap: string, rest: string)
    requires Pad(gap) && Bounded(rest)
    ensures Bounded(gap + rest)
  {
    if gap == "" { assert gap + rest == rest; } else { assert (gap + rest)[0] == gap[0]; }
  }

  lemma ReadTableParts(d: Dialect, name: string, items: seq<seq<Token>>)
    requires IsName(name) && items != [] && forall i :: 0 <= i < |items| ==> Balanced(items[i], 0)
    ensures ReadTable(d, CREATE + ([Word(name)] + ([LParen] + (Commas(items) + ([RParen] + [])))))
            == match ReadLines(d, items)
               case None => None
               case Some((columns, key)) => Some(Table(name, columns, key))
  {
    hide IsName, Balanced, ReadLines, ReadItems;
    var inside := Commas(items) + ([RParen] + []);
    var ts := CREATE + ([Word(name)] + ([LParen] + inside));
    assert |CREATE| == 5 && |inside| >= 1;
    assert ts[..5] == CREATE && ts[5] == Word(name) && ts[6] == LParen && ts[7..] == inside;
    ReadItemsBack(items, []);
  }

  lemma {:induction false} TextAt(d: Dialect, fs: seq<Field>, i: nat)
    requires i < |fs|
    ensures ColumnTexts(d, fs)[i] == ColumnText(d, fs[i])
  {
    hide ColumnText;
    if i > 0 { TextAt(d, fs[1..], i - 1); }
  }

  lemma EachColumn(d: Dialect, fs: seq<Field>)
    requires AllLegible(d, fs)
    ensures LexEach(ColumnTexts(d, fs)) == ColumnItems(d, fs)
  {
    hide Legible, Typed, Lex, ColumnText, ColumnTexts, ColumnItem, ColumnItems;
    forall i | 0 <= i < |fs| ensures Lex(ColumnTexts(d, fs)[i]) == ColumnItem(d, fs[i]) {
      TextAt(d, fs, i);
      ItemIs(d, fs[i]);
    }
  }

  lemma ItemIs(d: Dialect, f: Field)
    requires Legible(d, f)
    ensures Lex(ColumnText(d, f)) == ColumnItem(d, f)
  {
    LexColumn(d, f);
  }

  lemma LinesRead(d: Dialect, fs: seq<Field>)
    requires AllLegible(d, fs) && fs != []
    ensures var key := KeyNames(d, fs);
            var lines := ColumnTexts(d, fs) + KeyClause(d, key);
            && AllClosed(lines) && (forall i :: 0 <= i < |lines| ==> Balanced(LexEach(lines)[i], 0))
            && LexEach(lines) == ColumnItems(d, fs) + if KeyClause(d, key) == [] then [] else [KeyItem(key)]
  {
    var key := KeyNames(d, fs);
    LinesClosed(d, fs);
    KeyAreNames(d, fs);
    LexKey(key);
    hide Lex, Balanced, Legible, Typed, ColumnItem, KeyItem, Closed, Join, ColumnText, KeyNames, ColumnTexts, ColumnItems;
    EachColumn(d, fs);
    LexBoth(ColumnTexts(d, fs), KeyClause(d, key));
    ItemsBalanced(d, fs, key, if KeyClause(d, key) == [] then [] else [KeyItem(key)]);
  }

  lemma LexBoth(a: seq<string>, b: seq<string>)
    ensures LexEach(a + b) == LexEach(a) + LexEach(b)
    ensures |b| == 1 ==> LexEach(b) == [Lex(b[0])]
  {
    hide Lex;
  }

  lemma ItemsBalanced(d: Dialect, fs: seq<Field>, key: seq<string>, last: seq<seq<Token>>)
    requires AllLegible(d, fs) && (last == [] || last == [KeyItem(key)])
    ensures var items := ColumnItems(d, fs) + last; forall i :: 0 <= i < |items| ==> Balanced(items[i], 0)
  {
    hide Balanced, Legible, Typed, ColumnItem, KeyItem;
    KeyBalanced(key);
    forall i | 0 <= i < |fs| ensures Balanced(ColumnItem(d, fs[i]), 0) { ItemBalanced(d, fs[i]); }
  }

  lemma LinesClosed(d: Dialect, fs: seq<Field>)
    requires AllLegible(d, fs)
    ensures AllClosed(ColumnTexts(d, fs) + KeyClause(d, KeyNames(d, fs)))
  {
    LegibleIsClean(d, fs);
    NeatColumns(d, fs);
    NeatKey(d, KeyNames(d, fs));
    hide ColumnTexts, KeyClause, KeyNames, Closed;
  }

  lemma LegibleIsClean(d: Dialect, fs: seq<Field>)
    requires AllLegible(d, fs)
    ensures CleanFields(fs)
  {
    hide CleanField, Typed, TypeFits, IsName;
  }

  lemma {:induction false} KeyAreNames(d: Dialect, fs: seq<Field>)
    requires AllLegible(d, fs)
    ensures AllNames(KeyNames(d, fs))
  {
    hide IsName, CleanField, Typed, TypeFits, Quoted;
    if fs != [] { KeyAreNames(d, fs[1..]); }
  }

  /** Whether the database has a statement like the one that is written for the columns. */
  predicate TableFits(d: Dialect, fs: seq<Field>) {
    match d
    case MySQL => true
    case Postgres => forall i :: 0 <= i < |fs| ==> fs[i].title == ""
    case SQLite => exists i :: 0 <= i < |fs| && fs[i].isPrimary
  }

  /**
   The CREATE TABLE that is generated, read as SQL after formatting, makes the table with one column for each field,
   of its type and with its options, and with the primary columns as key, if and only if: in PostgreSQL no field has
   a title, and in SQLite some field is primary. Otherwise it is no statement of that database.
   */
  lemma TableReadsExactlyWhen(d: Dialect, table: string, fs: seq<Field>)
    requires fs != [] && IsName(Quoted(d, table)) && AllLegible(d, fs)
    ensures ReadTable(d, Lex(Normalised(CreateTable(d, table, fs))))
            == if TableFits(d, fs) then Some(TableMeant(d, table, fs)) else None
  {
    var key := KeyNames(d, fs);
    var lines := ColumnTexts(d, fs) + KeyClause(d, key);
    NormalisedKeepsTokens(CreateTable(d, table, fs));
    LinesRead(d, fs);
    KeyAreNames(d, fs);
    LinesMeant(d, fs);
    NotEmpty(d, fs);
    hide *;
    LexTable(d, table, lines);
    ReadTableParts(d, Quoted(d, table), LexEach(lines));
    TableIs(d, table, fs);
  }

  lemma NotEmpty(d: Dialect, fs: seq<Field>)
    requires fs != []
    ensures ColumnTexts(d, fs) + KeyClause(d, KeyNames(d, fs)) != []
    ensures LexEach(ColumnTexts(d, fs) + KeyClause(d, KeyNames(d, fs))) != []
  {
  }

  lemma TableIs(d: Dialect, table: string, fs: seq<Field>)
    ensures CreateTable(d, table, fs) == TableText(d, table, ColumnTexts(d, fs) + KeyClause(d, KeyNames(d, fs)))
    ensures TableMeant(d, table, fs)
            == Table(Quoted(d, table), ColumnDefs(d, fs), if KeyNames(d, fs) == [] then None else Some(KeyNames(d, fs)))
  {
  }

  lemma FitsExactly(d: Dialect, fs: seq<Field>)
    ensures TableFits(d, fs) <==> NoneCommented(d, fs) && (d == SQLite ==> KeyNames(d, fs) != [])
    ensures KeyClause(d, KeyNames(d, fs)) == [] <==> d != SQLite && KeyNames(d, fs) == []
  {
    NoKeyNames(d, fs);
    hide KeyNames, Join;
  }

  lemma LinesMeant(d: Dialect, fs: seq<Field>)
    requires AllLegible(d, fs)
    ensures var key := KeyNames(d, fs);
            ReadLines(d, ColumnItems(d, fs) + if KeyClause(d, key) == [] then [] else [KeyItem(key)])
            == if TableFits(d, fs) then Some((ColumnDefs(d, fs), if key == [] then None else Some(key))) else None
  {
    hide *;
    var key := KeyNames(d, fs);
    KeyAreNames(d, fs);
    ReadKey(d, key);
    ReadNoLines(d);
    FitsExactly(d, fs);
    ReadColumnsBack(d, fs, if KeyClause(d, key) == [] then [] else [KeyItem(key)]);
    assert ColumnDefs(d, fs) + [] == ColumnDefs(d, fs);
  }

  lemma ReadNoLines(d: Dialect)
    ensures ReadLines(d, []) == Some(([], None))
  {
  }

  /** Every column of the key is a column of the table. */
  lemma KeyIsAmongColumns(d: Dialect, table: string, fs: seq<Field>)
    requires KeyNames(d, fs) != []
    ensures var t := TableMeant(d, table, fs);
            t.key.Some? && forall k :: k in t.key.value ==> exists c :: c in t.columns && c.name == if d == SQLite then Quoted(d, k) else k
  {
    var t := TableMeant(d, table, fs);
    forall k | k in t.key.value ensures exists c :: c in t.columns && c.name == if d == SQLite then Quoted(d, k) else k {
      KeyListsPrimaryColumns(d, fs, k);
      var f :| f in fs && f.isPrimary && k == if d == SQLite then f.nativeName else Quoted(d, f.nativeName);
      var i :| 0 <= i < |fs| && fs[i] == f;
      assert t.columns[i] in t.columns;
    }
  }

  // ----- generated scripts -----

  predicate LegibleSchema(d: Dialect, sch: Schema) {
    IsName(Quoted(d, sch.nativeName)) && forall k :: k in sch.fields ==> Legible(d, sch.fields[k])
  }

  lemma {:induction false} LegibleColumns(d: Dialect, sch: Schema, order: seq<string>)
    requires LegibleSchema(d, sch) && forall k :: k in order ==> k in sch.fields
    ensures AllLegible(d, Columns(d, sch.fields, order))
  {
    hide Legible, Typed, IsName;
    if order != [] { LegibleColumns(d, sch, order[1..]); }
  }

  /** A generated statement makes the table of its schema, or is none of that database. */
  lemma GeneratedTableReads(d: Dialect, sch: Schema, order: seq<string>)
    requires LegibleSchema(d, sch) && Enumerates(order, sch.fields) && HasColumn(d, sch)
    ensures var fs := Columns(d, sch.fields, order);
            && fs != []
            && (forall f :: f in fs <==> f in sch.fields.Values && Typed(d, f))
            && ReadTable(d, Lex(Normalised(CreateTable(d, sch.nativeName, fs))))
               == if TableFits(d, fs) then Some(TableMeant(d, sch.nativeName, fs)) else None
  {
    var fs := Columns(d, sch.fields, order);
    forall f ensures f in fs <==> f in sch.fields.Values && Typed(d, f) {
      ColumnsAreTypedFields(d, sch.fields, order, f);
    }
    var k :| k in sch.fields && Typed(d, sch.fields[k]);
    assert sch.fields[k] in fs;
    LegibleColumns(d, sch, order);
    hide Typed, Legible;
    TableReadsExactlyWhen(d, sch.nativeName, fs);
  }

  /** The statement makes the table of the schema, its fields in some order, or is none of that database. */
  ghost predicate ReadsAs(d: Dialect, sch: Schema, stmt: string) {
    exists order :: Enumerates(order, sch.fields)
                    && var fs := Columns(d, sch.fields, order);
                       ReadTable(d, Lex(stmt)) == if TableFits(d, fs) then Some(TableMeant(d, sch.nativeName, fs)) else None
  }

  lemma TableReadsAs(d: Dialect, sch: Schema, table: string)
    requires LegibleSchema(d, sch) && HasColumn(d, sch) && IsTableOf(d, sch, table)
    ensures ReadsAs(d, sch, Normalised(table))
  {
    hide LegibleSchema, HasColumn, CreateTable, TableMeant, TableFits, ReadTable, Lex, Normalised;
    var order :| Enumerates(order, sch.fields) && table == CreateTable(d, sch.nativeName, Columns(d, sch.fields, order));
    GeneratedTableReads(d, sch, order);
  }

  /** The whole script, read as SQL: one table for each schema with a typed column, in the sorted order of their names. */
  lemma GeneratedScriptReads(d: Dialect, schs: map<string, Schema>, names: seq<string>, orders: seq<seq<string>>)
    requires OrdersFit(schs, names, orders) && Sorted(names)
    requires forall n :: n in names ==> CleanSchema(schs[n]) && LegibleSchema(d, schs[n])
    ensures var stmts, live := StatementsOf(Script(Tables(d, schs, names, orders))), Live(d, schs, names);
            && |stmts| == |live| && Sorted(live)
            && (forall n :: n in live <==> n in names && HasColumn(d, schs[n]))
            && forall i :: 0 <= i < |live| ==> ReadsAs(d, schs[live[i]], stmts[i])
  {
    hide StatementsOf, Script, Tables, Live, HasColumn, Normalised, IsTableOf, Sorted, CleanSchema, LegibleSchema, ReadsAs, Deal;
    GeneratedStatements(d, schs, names, orders);
    var stmts, live := StatementsOf(Script(Tables(d, schs, names, orders))), Live(d, schs, names);
    forall i | 0 <= i < |live| ensures ReadsAs(d, schs[live[i]], stmts[i]) {
      assert live[i] in live;
      var table :| IsTableOf(d, schs[live[i]], table) && stmts[i] == Normalised(table);
      TableReadsAs(d, schs[live[i]], table);
    }
  }
}
