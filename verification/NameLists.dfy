/** Lists of names with commas between them, as tokens. */
module NameLists {
  import opened Strings
  import opened StringLaws
  import opened SqlText
  import opened Tokens
  import opened SqlCondition
  import opened SqlStatement
  import opened WhereProofs

  predicate AllNames(ns: seq<string>) { forall n :: n in ns ==> IsName(n) }

  function NameTokens(ns: seq<string>): seq<Token> {
    if ns == [] then [] else if |ns| == 1 then [Word(ns[0])] else [Word(ns[0]), Comma] + NameTokens(ns[1..])
  }

  /** Names with commas between them, and white space behind the commas or not. */
  lemma {:induction false} LexNames(ns: seq<string>, sep: string, rest: string)
    requires ns != [] && AllNames(ns) && Bounded(rest) && (sep == ", " || sep == ",")
    ensures Lex(Join(ns, sep) + rest) == NameTokens(ns) + Lex(rest)
  {
    hide IsName, Lex, Bounded;
    NameSolid(ns[0]);
    if |ns| == 1 {
      LexWord(ns[0], rest);
    } else {
      var tail := Join(ns[1..], sep) + rest;
      LexNames(ns[1..], sep, rest);
      if sep == "," { LexMark(',', tail); } else { LexComma(tail); }
      LexWord(ns[0], sep + tail);
      JoinStep(ns, sep, rest);
      TwoTokens(Word(ns[0]), Comma, Lex(tail));
      Regroup([Word(ns[0]), Comma], NameTokens(ns[1..]), Lex(rest));
    }
  }

  lemma LexNameList(columns: seq<string>, sep: string, rest: string)
    requires AllNames(columns) && Bounded(rest) && (sep == ", " || sep == ",")
    ensures Lex(Join(columns, sep) + rest) == NameTokens(columns) + Lex(rest)
  {
    if columns == [] {
      assert Join(columns, sep) + rest == rest;
    } else {
      LexNames(columns, sep, rest);
    }
  }

  lemma {:induction false} ReadNamesBack(ns: seq<string>, ts: seq<Token>)
    requires ns != [] && AllNames(ns)
    ensures ReadNames(NameTokens(ns) + ([RParen] + ts)) == Some((ns, ts))
  {
    hide IsName;
    var all := NameTokens(ns) + ([RParen] + ts);
    if |ns| == 1 {
      assert all[0] == Word(ns[0]) && all[1] == RParen && all[2..] == ts && ns == [ns[0]];
    } else {
      ReadNamesBack(ns[1..], ts);
      Regroup([Word(ns[0]), Comma], NameTokens(ns[1..]), [RParen] + ts);
      assert all[0] == Word(ns[0]) && all[1] == Comma && ns == [ns[0]] + ns[1..];
      assert all[2..] == NameTokens(ns[1..]) + ([RParen] + ts);
      hide NameTokens;
    }
  }

  // ----- which words are names -----

  const NAME_SIGNS: string := "0123456789_.$`"

  predicate IsPlainNameChar(c: char) { c in SMALL || c in CAPITALS || c in NAME_SIGNS }

  lemma PlainCharIsNameChar(c: char)
    requires IsPlainNameChar(c)
    ensures IsNameChar(c) && !IsQuote(c)
  {
    if c in SMALL { var i :| 0 <= i < 26 && SMALL[i] == c; LetterAt(i); }
    if c in CAPITALS { var i :| 0 <= i < 26 && CAPITALS[i] == c; LetterAt(i); }
  }

  lemma {:induction false} PlainNameText(w: string)
    requires forall i :: 0 <= i < |w| ==> IsPlainNameChar(w[i])
    ensures IsNameText(w)
  {
    hide IsPlainNameChar, IsNameChar, IsQuote;
    if w != "" {
      PlainCharIsNameChar(w[0]);
      PlainNameText(w[1..]);
    }
  }

  /** Every word of letters, digits, underscores, dots, dollar signs and back-quotes is a name, but for the seven keywords. */
  lemma PlainWordsAreNames(w: string)
    requires w != "" && forall i :: 0 <= i < |w| ==> IsPlainNameChar(w[i])
    ensures IsName(w) <==> Upper(w) !in {"AND", "OR", "NOT", "IN", "IS", "LIKE", "NULL"}
  {
    hide IsPlainNameChar;
    PlainNameText(w);
  }
}
