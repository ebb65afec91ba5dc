/**
 SQL search conditions (section 8.12 of ISO/IEC 9075:1992): a reader in which AND binds tighter than OR and
 every `?` takes the next argument, and the three-valued value of what was read.
 */
module SqlCondition {
  import opened Strings
  import opened SqlText
  import opened Tokens
  import opened Filters

  // ----- names -----

  predicate IsNameChar(c: char) {
    || 'a' <= c <= 'z' || 'A' <= c <= 'Z' || '0' <= c <= '9' || c == '_' || c == '.' || c == '$' || c == '`'
    || (c >= '\U{80}' && !IsSpace(c))
  }

  predicate IsKeyword(w: string) { Upper(w) in {"AND", "OR", "NOT", "IN", "IS", "LIKE", "NULL"} }

  /** Name characters, and parts in double quotes. */
  predicate IsNameText(w: string)
    decreases |w|
  {
    w == "" ||
      var n := LiteralLen(w);
      if n > 0 then w[0] == '"' && IsNameText(w[n..]) else IsNameChar(w[0]) && IsNameText(w[1..])
  }

  /** An identifier, quoted or not, possibly qualified. */
  predicate IsName(w: string) { w != "" && IsNameText(w) && !IsKeyword(w) }

  // ----- conditions -----

  datatype Cond = Pred(col: string, cmp: Cmp, arg: Value) | Conj(conds: seq<Cond>) | Disj(conds: seq<Cond>)

  function Eval(c: Cond, row: Row): Truth {
    match c
    case Pred(col, cmp, arg) => row(col, cmp, arg)
    case Conj(cs) => EvalAnd(cs, row)
    case Disj(cs) => EvalOr(cs, row)
  }

  function EvalAnd(cs: seq<Cond>, row: Row): Truth {
    if cs == [] then True else And3(Eval(cs[0], row), EvalAnd(cs[1..], row))
  }

  function EvalOr(cs: seq<Cond>, row: Row): Truth {
    if cs == [] then False else Or3(Eval(cs[0], row), EvalOr(cs[1..], row))
  }

  // ----- reader -----

  /** What was read, and the tokens and arguments left. */
  datatype Read<+T> = Fail | Ok(value: T, tokens: seq<Token>, args: seq<Value>)

  predicate Starts(ts: seq<Token>, w: string) { ts != [] && ts[0] == Word(w) }

  /** Comparison with a placeholder. */
  function PlaceholderCmp(w: string): Option<Cmp> {
    if w == "=" then Some(Eq)
    else if w == "<>" then Some(Ne)
    else if w == "LIKE" then Some(Like)
    else if w == ">" then Some(Gt)
    else if w == ">=" then Some(Ge)
    else if w == "<" then Some(Lt)
    else if w == "<=" then Some(Le)
    else if w == "IN" then Some(In)
    else None
  }

  function ReadPlaceholder(col: string, cmp: Cmp, ts: seq<Token>, args: seq<Value>): (r: Read<Cond>)
    ensures r.Ok? ==> |r.tokens| < |ts|
  {
    if Starts(ts, "?") && args != [] then Ok(Pred(col, cmp, args[0]), ts[1..], args[1..]) else Fail
  }

  function ReadPredicate(ts: seq<Token>, args: seq<Value>): (r: Read<Cond>)
    ensures r.Ok? ==> |r.tokens| < |ts|
  {
    if |ts| < 3 || !ts[0].Word? || !IsName(ts[0].w) || !ts[1].Word? then Fail
    else
      var col := ts[0].w;
      var op := ts[1].w;
      if op == "IS" then
        if Starts(ts[2..], "NULL") then Ok(Pred(col, IsNull, Nil), ts[3..], args)
        else if Starts(ts[2..], "NOT") && Starts(ts[3..], "NULL") then Ok(Pred(col, NotNull, Nil), ts[4..], args)
        else Fail
      else if op == "NOT" then
        if Starts(ts[2..], "IN") then ReadPlaceholder(col, NotIn, ts[3..], args) else Fail
      else if op == "<>" && Starts(ts[2..], "''") then Ok(Pred(col, NotBlank, Nil), ts[3..], args)
      else
        match PlaceholderCmp(op)
        case None => Fail
        case Some(cmp) => ReadPlaceholder(col, cmp, ts[2..], args)
  }

  function ReadFactor(ts: seq<Token>, args: seq<Value>): (r: Read<Cond>)
    ensures r.Ok? ==> |r.tokens| < |ts|
    decreases |ts|, 0
  {
    if ts != [] && ts[0] == LParen then
      match ReadOr(ts[1..], args)
      case Fail => Fail
      case Ok(cs, rest, left) =>
        if rest != [] && rest[0] == RParen then Ok(OrOf(cs), rest[1..], left) else Fail
    else ReadPredicate(ts, args)
  }

  function ReadAnd(ts: seq<Token>, args: seq<Value>): (r: Read<seq<Cond>>)
    ensures r.Ok? ==> |r.tokens| < |ts|
    decreases |ts|, 1
  {
    match ReadFactor(ts, args)
    case Fail => Fail
    case Ok(c, rest, left) =>
      if !Starts(rest, "AND") then Ok([c], rest, left) else
        match ReadAnd(rest[1..], left)
        case Fail => Fail
        case Ok(cs, rest', left') => Ok([c] + cs, rest', left')
  }

  function ReadOr(ts: seq<Token>, args: seq<Value>): (r: Read<seq<Cond>>)
    ensures r.Ok? ==> |r.tokens| < |ts|
    decreases |ts|, 2
  {
    match ReadAnd(ts, args)
    case Fail => Fail
    case Ok(cs, rest, left) =>
      if !Starts(rest, "OR") then Ok([AndOf(cs)], rest, left) else
        match ReadOr(rest[1..], left)
        case Fail => Fail
        case Ok(ds, rest', left') => Ok([AndOf(cs)] + ds, rest', left')
  }

  function AndOf(cs: seq<Cond>): Cond { if |cs| == 1 then cs[0] else Conj(cs) }

  function OrOf(cs: seq<Cond>): Cond { if |cs| == 1 then cs[0] else Disj(cs) }

  /** The condition a whole text stands for, when it is one and it takes all the arguments. */
  function ReadCondition(text: string, args: seq<Value>): Option<Cond> {
    match ReadOr(Lex(text), args)
    case Fail => None
    case Ok(cs, rest, left) => if rest == [] && left == [] then Some(OrOf(cs)) else None
  }
}
