/** The tokens of a statement. White space only separates them, so formatting a statement leaves them alone. */
module Tokens {
  import opened Strings
  import opened SqlText
  import opened SqlTextLaws
  import opened ClosedText

  datatype Token = LParen | RParen | Comma | Word(w: string)

  predicate IsDelimiter(c: char) { IsSpace(c) || c == '(' || c == ')' || c == ',' }

  /** A word goes on up to a delimiter that no string literal covers. */
  function WordLen(s: string): (n: nat)
    ensures n <= |s|
    ensures n > 0 <==> s != "" && !IsDelimiter(s[0])
    decreases |s|
  {
    if s == "" || IsDelimiter(s[0]) then 0 else Unit(s) + WordLen(s[Unit(s)..])
  }

  /** A literal, or else one character. */
  function Unit(s: string): (k: nat)
    requires s != ""
    ensures 1 <= k <= |s|
  {
    if LiteralLen(s) > 0 then LiteralLen(s) else 1
  }

  function Mark(c: char): Token
    requires IsDelimiter(c) && !IsSpace(c)
  {
    if c == '(' then LParen else if c == ')' then RParen else Comma
  }

  function Lex(s: string): seq<Token>
    decreases |s|
  {
    if s == "" then []
    else if IsSpace(s[0]) then Lex(s[1..])
    else if IsDelimiter(s[0]) then [Mark(s[0])] + Lex(s[1..])
    else
      var n := WordLen(s);
      [Word(s[..n])] + Lex(s[n..])
  }

  // ----- formatting keeps the tokens -----

  lemma ScanUnit(s: string)
    requires s != "" && !IsDelimiter(s[0])
    ensures var k, t := Unit(s), Scan(s);
            t != "" && t[0] == s[0] && Unit(t) == k && t[..k] == s[..k] && t[k..] == Scan(s[k..])
  {
    ScanHead(s);
    var k, t := Unit(s), Scan(s);
    assert s[..k][0] == s[0] && t[..k][0] == t[0];
  }

  /** The scanner works apart on a word and what follows it. */
  lemma {:induction false} ScanWord(s: string)
    ensures var n := WordLen(s);
            var t := Scan(s);
            WordLen(t) == n && n <= |t| && t[..n] == s[..n] && t[n..] == Scan(s[n..])
    decreases |s|
  {
    if s != "" && !IsDelimiter(s[0]) {
      ScanUnit(s);
      var k, t := Unit(s), Scan(s);
      assert WordLen(s) == k + WordLen(s[k..]) && WordLen(t) == k + WordLen(t[k..]);
      hide *;
      ScanWord(s[k..]);
      var u, m := t[k..], WordLen(s[k..]);
      assert WordLen(u) == m && u[..m] == s[k..][..m] && u[m..] == Scan(s[k..][m..]);
      Split2(s, t, k, m);
      assert s[k + m..] == s[k..][m..] && t[k + m..] == u[m..];
    } else {
      ScanDelimiter(s);
    }
  }

  lemma ScanDelimiter(s: string)
    requires s == "" || IsDelimiter(s[0])
    ensures WordLen(s) == WordLen(Scan(s)) == 0
  {
    if s != "" { ScanHead(s); }
  }

  /** Two texts that start alike for k characters and then for n more. */
  lemma Split2(s: string, t: string, k: nat, n: nat)
    requires k <= |s| && k <= |t| && n <= |s| - k && n <= |t| - k
    requires t[..k] == s[..k] && t[k..][..n] == s[k..][..n]
    ensures t[..k + n] == s[..k + n] && t[k + n..] == t[k..][n..] && s[k + n..] == s[k..][n..]
  {
    assert t[..k + n] == t[..k] + t[k..][..n];
    assert s[..k + n] == s[..k] + s[k..][..n];
  }

  lemma {:induction false} LexDrop(s: string)
    ensures Lex(DropBlanks(s)) == Lex(s)
  {
    if s != "" && IsBlank(s[0]) { LexDrop(s[1..]); }
  }

  lemma {:induction false} LexScan(s: string)
    ensures Lex(Scan(s)) == Lex(s)
    decreases |s|
  {
    if s != "" {
      ScanHead(s);
      if IsBlank(s[0]) {
        LexDrop(s);
        LexScan(DropBlanks(s));
      } else if IsDelimiter(s[0]) {
        LexScan(s[1..]);
      } else {
        ScanWord(s);
        LexScan(s[WordLen(s)..]);
      }
    }
  }

  lemma {:induction false} LexTrimLeft(s: string)
    ensures Lex(TrimLeft(s)) == Lex(s)
  {
    if s != "" && IsSpace(s[0]) { LexTrimLeft(s[1..]); }
  }

  lemma {:induction false} WordThenSpace(s: string, c: char)
    requires IsSpace(c) && !IsQuote(c)
    ensures WordLen(s + [c]) == WordLen(s)
    ensures var n := WordLen(s); (s + [c])[..n] == s[..n] && (s + [c])[n..] == s[n..] + [c]
    decreases |s|
  {
    hide LiteralLen, IsSpace;
    if s != "" && !IsDelimiter(s[0]) {
      AppendLiteralLen(s, c);
      var k, t := Unit(s), s + [c];
      assert t[0] == s[0] && Unit(t) == k;
      AppendSlices(s, c, k);
      WordThenSpace(s[k..], c);
      Split2(s, t, k, WordLen(s[k..]));
    }
  }

  lemma {:induction false} LexThenSpace(s: string, c: char)
    requires IsSpace(c)
    ensures Lex(s + [c]) == Lex(s)
    decreases |s|
  {
    if s == "" {
      assert "" + [c] == [c] && [c][1..] == "";
    } else if IsDelimiter(s[0]) {
      AppendSlices(s, c, 1);
      LexThenSpace(s[1..], c);
    } else {
      WordThenSpace(s, c);
      LexThenSpace(s[WordLen(s)..], c);
    }
  }

  lemma {:induction false} LexTrimRight(s: string)
    ensures Lex(TrimRight(s)) == Lex(s)
  {
    if s != "" && IsSpace(s[|s| - 1]) {
      var t := s[..|s| - 1];
      assert s == t + [s[|s| - 1]];
      LexThenSpace(t, s[|s| - 1]);
      LexTrimRight(t);
    }
  }

  /** What formatSQL sends to the database has the tokens of what it was given. */
  lemma FormattedKeepsTokens(s: string)
    requires MarkerSafe(s)
    ensures Lex(Formatted(s)) == Lex(s)
  {
    FormatIsScanExactly(s);
    NormalisedKeepsTokens(s);
  }

  lemma NormalisedKeepsTokens(s: string)
    ensures Lex(Normalised(s)) == Lex(s)
  {
    LexScan(s);
    LexTrimLeft(Scan(s));
    LexTrimRight(TrimLeft(Scan(s)));
  }

  // ----- tokens of text put together -----

  predicate Bounded(rest: string) { rest == "" || IsDelimiter(rest[0]) }

  lemma UnitThen(a: string, b: string)
    requires a != "" && Closed(a)
    ensures var k := Unit(a);
            Unit(a + b) == k && (a + b)[..k] == a[..k] && (a + b)[k..] == a[k..] + b && Closed(a[k..]) && (a + b)[0] == a[0]
  {
    HeadOfConcat(a, b);
  }

  lemma {:induction false} WordThen(a: string, b: string)
    requires Closed(a) && Bounded(b)
    ensures var n := WordLen(a);
            WordLen(a + b) == n && (a + b)[..n] == a[..n] && (a + b)[n..] == a[n..] + b && Closed(a[n..])
    decreases |a|
  {
    if a == "" {
      assert a + b == b;
    } else {
      UnitThen(a, b);
      if !IsDelimiter(a[0]) {
        hide Unit, Closed, Bounded;
        var k := Unit(a);
        WordThen(a[k..], b);
        Split2(a, a + b, k, WordLen(a[k..]));
      }
    }
  }

  /** The tokens of closed text come first, whatever follows behind a delimiter. */
  lemma {:induction false} LexThen(a: string, b: string)
    requires Closed(a) && Bounded(b)
    ensures Lex(a + b) == Lex(a) + Lex(b)
    decreases |a|
  {
    if a == "" {
      assert a + b == b;
    } else if IsDelimiter(a[0]) {
      UnitThen(a, b);
      LexThen(a[1..], b);
      if !IsSpace(a[0]) { Regroup([Mark(a[0])], Lex(a[1..]), Lex(b)); }
    } else {
      WordThen(a, b);
      hide Closed, Bounded, WordLen;
      assert (a + b)[0] == a[0];
      var n := WordLen(a);
      LexThen(a[n..], b);
      Regroup([Word(a[..n])], Lex(a[n..]), Lex(b));
    }
  }

  /** Text that is one word. */
  predicate IsWord(w: string) { w != "" && Closed(w) && WordLen(w) == |w| }

  lemma LexOneWord(w: string)
    requires IsWord(w)
    ensures Lex(w) == [Word(w)]
  {
    assert w[..|w|] == w && w[|w|..] == "";
    assert Lex("") == [];
  }

  lemma LexWord(w: string, rest: string)
    requires IsWord(w) && Bounded(rest)
    ensures Lex(w + rest) == [Word(w)] + Lex(rest)
  {
    LexOneWord(w);
    LexThen(w, rest);
  }

  lemma {:induction false} PlainText(w: string)
    requires forall c :: c in w ==> !IsDelimiter(c) && !IsQuote(c)
    ensures Closed(w) && WordLen(w) == |w|
  {
    if w != "" {
      assert w[0] in w;
      PlainText(w[1..]);
    }
  }

  // ----- gaps and keywords -----

  /** The line break and indentation between the lines of a clause template. */
  const BREAK: string := "\n\t\t\t"

  lemma Gaps()
    ensures Pad(BREAK) && Pad(" ") && Pad("")
  {
  }

  lemma {:induction false} LexGap(gap: string, rest: string)
    requires Pad(gap)
    ensures Lex(gap + rest) == Lex(rest)
    ensures gap != "" ==> Bounded(gap + rest)
  {
    if gap == "" {
      assert gap + rest == rest;
    } else {
      LexGap(gap[1..], rest);
      assert (gap + rest)[1..] == gap[1..] + rest;
    }
  }

  lemma LexBreak()
    ensures Lex(BREAK) == [] && Bounded(BREAK) && Pad(BREAK) && Pad(" ") && BREAK != ""
  {
    Gaps();
    LexGap(BREAK, "");
    assert BREAK + "" == BREAK;
  }

  predicate IsPlainWord(w: string) { w != "" && forall c :: c in w ==> !IsDelimiter(c) && !IsQuote(c) }

  lemma PlainIsWord(w: string)
    requires IsPlainWord(w)
    ensures IsWord(w)
  {
    PlainText(w);
  }

  /** A word with white space in front of it and behind it. */
  lemma LexKeyword(gap: string, w: string, gap': string, rest: string)
    requires Pad(gap) && Pad(gap') && gap' != "" && IsPlainWord(w)
    ensures Lex(gap + w + gap' + rest) == [Word(w)] + Lex(rest)
    ensures gap != "" ==> Bounded(gap + w + gap' + rest)
  {
    PlainText(w);
    LexGap(gap', rest);
    LexWord(w, gap' + rest);
    LexGap(gap, w + (gap' + rest));
    Regroup(gap + w, gap', rest);
    Regroup(gap, w, gap' + rest);
  }

  /** The same at the start of a text. */
  lemma LexLeading(w: string, gap: string, rest: string)
    requires Pad(gap) && gap != "" && IsPlainWord(w)
    ensures Lex(w + gap + rest) == [Word(w)] + Lex(rest)
  {
    assert "" + w + gap + rest == w + gap + rest;
    LexKeyword("", w, gap, rest);
  }

  lemma TwoTokens(a: Token, b: Token, rest: seq<Token>)
    ensures [a] + ([b] + rest) == [a, b] + rest
  {
  }

  lemma ThreeTokens(a: Token, b: Token, c: Token, rest: seq<Token>)
    ensures [a] + ([b] + ([c] + rest)) == [a, b, c] + rest
  {
  }

  lemma LexMark(c: char, rest: string)
    requires IsDelimiter(c) && !IsSpace(c)
    ensures Lex([c] + rest) == [Mark(c)] + Lex(rest) && Bounded([c] + rest)
  {
    assert ([c] + rest)[1..] == rest;
  }
}
