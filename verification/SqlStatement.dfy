/** Readers for UPDATE, INSERT and SELECT: every `?` takes the next argument, and all arguments must be taken. */
module SqlStatement {
  import opened Strings
  import opened Schemas
  import opened Filters
  import opened Tokens
  import opened SqlCondition

  // ----- assignments -----

  /** What a column is set to: an argument, NULL, or the value the row would have had. */
  datatype SetTo = Given(v: Value) | Null | FromRow

  type Assignment = (string, SetTo)

  /** An assignment; `VALUES(column)` stands for the value of the row only where MySQL allows it. */
  function ReadAssignment(ts: seq<Token>, args: seq<Value>, fromRow: bool): (r: Read<Assignment>)
    ensures r.Ok? ==> |r.tokens| < |ts|
  {
    if |ts| < 3 || !ts[0].Word? || !IsName(ts[0].w) || ts[1] != Word("=") then Fail
    else
      var col := ts[0].w;
      if ts[2] == Word("NULL") then Ok((col, Null), ts[3..], args)
      else if ts[2] == Word("?") && args != [] then Ok((col, Given(args[0])), ts[3..], args[1..])
      else if fromRow && |ts| >= 6 && ts[2..6] == [Word("VALUES"), LParen, Word(col), RParen] then Ok((col, FromRow), ts[6..], args)
      else Fail
  }

  function ReadAssignments(ts: seq<Token>, args: seq<Value>, fromRow: bool): (r: Read<seq<Assignment>>)
    ensures r.Ok? ==> |r.tokens| < |ts|
    decreases |ts|
  {
    match ReadAssignment(ts, args, fromRow)
    case Fail => Fail
    case Ok(a, rest, left) =>
      if rest == [] || rest[0] != Comma then Ok([a], rest, left) else
        match ReadAssignments(rest[1..], left, fromRow)
        case Fail => Fail
        case Ok(as', rest', left') => Ok([a] + as', rest', left')
  }

  // ----- UPDATE -----

  datatype Update = Update(table: string, sets: seq<Assignment>, cond: Cond)

  /** UPDATE table SET assignments WHERE condition */
  function ReadUpdate(ts: seq<Token>, args: seq<Value>): Option<Update> {
    if |ts| < 3 || ts[0] != Word("UPDATE") || !ts[1].Word? || !IsName(ts[1].w) || ts[2] != Word("SET") then None
    else
      match ReadAssignments(ts[3..], args, false)
      case Fail => None
      case Ok(sets, rest, left) =>
        if !Starts(rest, "WHERE") then None else
          match ReadOr(rest[1..], left)
          case Fail => None
          case Ok(cs, rest', left') =>
            if rest' == [] && left' == [] then Some(Update(ts[1].w, sets, OrOf(cs))) else None
  }

  // ----- INSERT -----

  datatype Insert = Insert(ignore: bool, table: string, columns: seq<string>, rows: seq<seq<Value>>, onConflict: seq<Assignment>)

  /** Names with commas between them, up to a closing parenthesis. */
  function ReadNames(ts: seq<Token>): (r: Option<(seq<string>, seq<Token>)>)
    decreases |ts|
  {
    if |ts| < 2 || !ts[0].Word? || !IsName(ts[0].w) then None
    else if ts[1] == RParen then Some(([ts[0].w], ts[2..]))
    else if ts[1] == Comma then
      match ReadNames(ts[2..])
      case None => None
      case Some((ns, rest)) => Some(([ts[0].w] + ns, rest))
    else None
  }

  /** The same; MySQL allows no names at all. */
  function ReadNameList(dialect: Dialect, ts: seq<Token>): Option<(seq<string>, seq<Token>)> {
    if dialect == MySQL && ts != [] && ts[0] == RParen then Some(([], ts[1..])) else ReadNames(ts)
  }

  /** Placeholders with commas between them, up to a closing parenthesis. */
  function ReadMarks(ts: seq<Token>, args: seq<Value>): (r: Read<seq<Value>>)
    ensures r.Ok? ==> |r.tokens| < |ts|
    decreases |ts|
  {
    if |ts| < 2 || ts[0] != Word("?") || args == [] then Fail
    else if ts[1] == RParen then Ok([args[0]], ts[2..], args[1..])
    else if ts[1] == Comma then
      match ReadMarks(ts[2..], args[1..])
      case Fail => Fail
      case Ok(vs, rest, left) => Ok([args[0]] + vs, rest, left)
    else Fail
  }

  /** A row in parentheses. */
  function ReadRow(ts: seq<Token>, args: seq<Value>): (r: Read<seq<Value>>)
    ensures r.Ok? ==> |r.tokens| < |ts|
  {
    if |ts| < 2 || ts[0] != LParen then Fail
    else if ts[1] == RParen then Ok([], ts[2..], args)
    else ReadMarks(ts[1..], args)
  }

  /** Rows with commas between them. */
  function ReadRows(ts: seq<Token>, args: seq<Value>): (r: Read<seq<seq<Value>>>)
    ensures r.Ok? ==> |r.tokens| < |ts|
    decreases |ts|
  {
    match ReadRow(ts, args)
    case Fail => Fail
    case Ok(row, rest, left) =>
      if rest == [] || rest[0] != Comma then Ok([row], rest, left) else
        match ReadRows(rest[1..], left)
        case Fail => Fail
        case Ok(rows, rest', left') => Ok([row] + rows, rest', left')
  }

  /**
   What to do about a row that is already there, at the end of the text: nothing is said, it is left alone, or its
   columns are set. MySQL has ON DUPLICATE KEY UPDATE; the others have ON CONFLICT, which in PostgreSQL takes a
   target if the row is to be updated.
   */
  function ReadConflict(dialect: Dialect, ts: seq<Token>, args: seq<Value>): Read<(bool, seq<Assignment>)> {
    if ts == [] then Ok((false, []), ts, args)
    else if |ts| < 4 || ts[0] != Word("ON") then Fail
    else if dialect == MySQL then
      if ts[1] == Word("DUPLICATE") && ts[2] == Word("KEY") && ts[3] == Word("UPDATE")
      then ConflictRead(ReadAssignments(ts[4..], args, true)) else Fail
    else if ts[1] != Word("CONFLICT") || ts[2] != Word("DO") then Fail
    else if ts[3] == Word("NOTHING") then Ok((true, []), ts[4..], args)
    else if dialect == SQLite && |ts| > 4 && ts[3] == Word("UPDATE") && ts[4] == Word("SET")
    then ConflictRead(ReadAssignments(ts[5..], args, false))
    else Fail
  }

  function ConflictRead(r: Read<seq<Assignment>>): Read<(bool, seq<Assignment>)> {
    match r
    case Fail => Fail
    case Ok(sets, rest, left) => Ok((false, sets), rest, left)
  }

  /** What follows INTO: table (columns) VALUES rows, and what to do about a conflict. */
  function ReadInto(dialect: Dialect, ignore: bool, ts: seq<Token>, args: seq<Value>): Option<Insert> {
    if |ts| < 2 || !ts[0].Word? || !IsName(ts[0].w) || ts[1] != LParen then None
    else
      match ReadNameList(dialect, ts[2..])
      case None => None
      case Some((columns, rest)) =>
        if !Starts(rest, "VALUES") then None else
          match ReadRows(rest[1..], args)
          case Fail => None
          case Ok(rows, rest', left) =>
            match ReadConflict(dialect, rest', left)
            case Fail => None
            case Ok((nothing, sets), end, left') =>
              if end == [] && left' == [] then Some(Insert(ignore || nothing, ts[0].w, columns, rows, sets)) else None
  }

  /** INSERT INTO, INSERT IGNORE INTO in MySQL, INSERT OR IGNORE INTO in SQLite */
  function ReadInsert(dialect: Dialect, ts: seq<Token>, args: seq<Value>): Option<Insert> {
    if |ts| < 4 || ts[0] != Word("INSERT") then None
    else if ts[1] == Word("INTO") then ReadInto(dialect, false, ts[2..], args)
    else if dialect == MySQL && ts[1] == Word("IGNORE") && ts[2] == Word("INTO") then ReadInto(dialect, true, ts[3..], args)
    else if dialect == SQLite && ts[1] == Word("OR") && ts[2] == Word("IGNORE") && ts[3] == Word("INTO")
    then ReadInto(dialect, true, ts[4..], args)
    else None
  }

  // ----- SELECT -----

  /** The rows a query returns: all, or `take` of them after the first `skip`. */
  datatype Window = Everything | Window(skip: nat, take: nat)

  datatype Select = Select(columns: seq<Token>, table: string, cond: Option<Cond>, groupBy: seq<Token>, window: Window)

  /** Tokens before the first one that is the given word. */
  function Before(ts: seq<Token>, w: string): (n: nat)
    ensures n <= |ts|
    ensures n < |ts| ==> ts[n] == Word(w)
  {
    if ts == [] || ts[0] == Word(w) then 0 else 1 + Before(ts[1..], w)
  }

  predicate IsDigit(c: char) { '0' <= c <= '9' }

  /** A number in decimal, after the digits read so far. */
  function ReadDigits(s: string, sofar: nat): Option<nat> {
    if s == "" then Some(sofar)
    else if IsDigit(s[0]) then ReadDigits(s[1..], 10 * sofar + (s[0] as nat - '0' as nat))
    else None
  }

  function ReadNumber(t: Token): Option<nat> {
    if t.Word? && t.w != "" then ReadDigits(t.w, 0) else None
  }

  /** LIMIT n, LIMIT skip, n (not in PostgreSQL), LIMIT n OFFSET skip, or nothing. */
  function ReadLimit(dialect: Dialect, ts: seq<Token>): Option<Window> {
    if ts == [] then Some(Everything)
    else if |ts| < 2 || ts[0] != Word("LIMIT") then None
    else
      match ReadNumber(ts[1])
      case None => None
      case Some(a) =>
        if |ts| == 2 then Some(Window(0, a))
        else if |ts| != 4 then None
        else
          match ReadNumber(ts[3])
          case None => None
          case Some(b) =>
            if ts[2] == Comma && dialect != Postgres then Some(Window(a, b))
            else if ts[2] == Word("OFFSET") then Some(Window(b, a))
            else None
  }

  /** The grouping and the window behind the condition. */
  function ReadTail(dialect: Dialect, ts: seq<Token>): Option<(seq<Token>, Window)> {
    if |ts| >= 2 && ts[0] == Word("GROUP") && ts[1] == Word("BY") then
      var n := Before(ts[2..], "LIMIT");
      match ReadLimit(dialect, ts[2 + n..])
      case None => None
      case Some(w) => Some((ts[2..2 + n], w))
    else
      match ReadLimit(dialect, ts)
      case None => None
      case Some(w) => Some(([], w))
  }

  /** SELECT columns FROM table, then WHERE, GROUP BY and LIMIT as far as they are there */
  function ReadSelect(dialect: Dialect, ts: seq<Token>, args: seq<Value>): Option<Select> {
    if !Starts(ts, "SELECT") then None else
      var n := 1 + Before(ts[1..], "FROM");
      if |ts| < n + 2 || !ts[n + 1].Word? || !IsName(ts[n + 1].w) then None else
        var columns, table, rest := ts[1..n], ts[n + 1].w, ts[n + 2..];
        if !Starts(rest, "WHERE") then
          match ReadTail(dialect, rest)
          case None => None
          case Some((g, w)) => if args == [] then Some(Select(columns, table, None, g, w)) else None
        else
          match ReadOr(rest[1..], args)
          case Fail => None
          case Ok(cs, rest', left) =>
            match ReadTail(dialect, rest')
            case None => None
            case Some((g, w)) => if left == [] then Some(Select(columns, table, Some(OrOf(cs)), g, w)) else None
  }
}
