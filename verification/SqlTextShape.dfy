/** What formatSQL does to a text, character by character: its literals, and the words between its white space. */
module SqlTextShape {
  import opened Strings
  import opened SqlText
  import opened SqlTextLaws

  // ----- words -----

  /** Characters up to the first space, tab, line feed, form feed or carriage return. */
  function SolidLen(s: string): (n: nat)
    ensures n <= |s|
    ensures n > 0 <==> s != "" && s[0] !in " \t\n\U{0c}\r"
    ensures forall i :: 0 <= i < n ==> s[i] !in " \t\n\U{0c}\r"
    ensures n < |s| ==> s[n] in " \t\n\U{0c}\r"
  {
    if s == "" || s[0] in " \t\n\U{0c}\r" then 0 else 1 + SolidLen(s[1..])
  }

  /** What lies between the runs of these five. */
  function Solids(s: string): seq<string>
    decreases |s|
  {
    if s == "" then []
    else
      var n := SolidLen(s);
      if n == 0 then Solids(s[1..]) else [s[..n]] + Solids(s[n..])
  }

  lemma {:induction false} SolidsAreSolid(s: string)
    ensures forall w :: w in Solids(s) ==> Word(w)
    decreases |s|
  {
    if s != "" { SolidsAreSolid(s[if SolidLen(s) == 0 then 1 else SolidLen(s)..]); }
  }

  lemma {:induction false} SolidsDrop(s: string)
    ensures Solids(DropBlanks(s)) == Solids(s)
  {
    if s != "" && IsBlank(s[0]) { SolidsDrop(s[1..]); }
  }

  lemma {:induction false} CollapseWord(s: string, n: nat)
    requires n <= |s| && forall i :: 0 <= i < n ==> !IsBlank(s[i])
    ensures Collapse(s) == s[..n] + Collapse(s[n..])
  {
    if n == 0 {
      assert s[..0] == "" && s[0..] == s;
    } else {
      CollapseWord(s[1..], n - 1);
      Regroup([s[0]], s[1..][..n - 1], Collapse(s[n..]));
      assert s[1..][n - 1..] == s[n..] && [s[0]] + s[1..][..n - 1] == s[..n];
    }
  }

  lemma {:induction false} LastSolid(s: string)
    requires s != "" && !IsBlank(s[|s| - 1])
    ensures DropBlanks(s) != "" && DropBlanks(s)[|DropBlanks(s)| - 1] == s[|s| - 1]
  {
    if IsBlank(s[0]) { LastSolid(s[1..]); }
  }

  /** Without blanks at its ends a collapsed text is its words with single spaces between them. */
  lemma {:induction false} CollapseIsJoin(s: string)
    requires s != "" ==> !IsBlank(s[0]) && !IsBlank(s[|s| - 1])
    ensures Collapse(s) == Join(Solids(s), " ")
    decreases |s|
  {
    if s != "" {
      var n := SolidLen(s);
      CollapseWord(s, n);
      if n == |s| {
        assert s[n..] == "" && Solids(s) == [s[..n]];
      } else {
        var rest := s[n..];
        LastSolid(rest);
        SolidsDrop(rest);
        CollapseIsJoin(DropBlanks(rest));
        SomeSolid(DropBlanks(rest));
        Regroup(s[..n], " ", Join(Solids(rest), " "));
      }
    }
  }

  lemma SomeSolid(s: string)
    requires s != "" && !IsBlank(s[0])
    ensures Solids(s) != []
  {
  }

  // ----- trimming and collapsing -----

  lemma {:induction false} TrimLeftDrop(s: string)
    ensures TrimLeft(DropBlanks(s)) == TrimLeft(s)
  {
    if s != "" && IsBlank(s[0]) { TrimLeftDrop(s[1..]); }
  }

  lemma {:induction false} CollapseTrimLeft(s: string)
    ensures TrimLeft(Collapse(s)) == Collapse(TrimLeft(s))
    decreases |s|
  {
    if s != "" {
      if IsBlank(s[0]) {
        CollapseTrimLeft(DropBlanks(s));
        TrimLeftDrop(s);
        assert Collapse(s)[1..] == Collapse(DropBlanks(s));
      } else if IsSpace(s[0]) {
        CollapseTrimLeft(s[1..]);
        assert Collapse(s)[1..] == Collapse(s[1..]);
      }
    }
  }

  lemma {:induction false} DropSnoc(s: string, c: char)
    ensures DropBlanks(s + [c]) == if DropBlanks(s) == "" then DropBlanks([c]) else DropBlanks(s) + [c]
  {
    if s == "" {
      assert s + [c] == [c];
    } else {
      assert (s + [c])[1..] == s[1..] + [c] && (s + [c])[0] == s[0];
      if IsBlank(s[0]) { DropSnoc(s[1..], c); }
    }
  }

  /** One more character at the end: a blank after a blank is swallowed. */
  lemma {:induction false} CollapseSnoc(s: string, c: char)
    ensures Collapse(s + [c])
            == if !IsBlank(c) then Collapse(s) + [c]
               else if s != "" && IsBlank(s[|s| - 1]) then Collapse(s) else Collapse(s) + " "
    decreases |s|
  {
    var t := s + [c];
    if s == "" {
      assert t == [c] && [c][1..] == "" && (IsBlank(c) ==> DropBlanks([c]) == "");
      assert "" + [c] == [c] && " " + "" == " " && [c] + "" == [c] && "" + " " == " ";
    } else if IsBlank(s[0]) {
      DropSnoc(s, c);
      var d := DropBlanks(s);
      if d == "" {
        AllBlank(s);
        assert DropBlanks([c]) == if IsBlank(c) then "" else [c];
        assert [c][1..] == "" && [c] + "" == [c];
      } else {
        LastAfterDrop(s);
        CollapseSnoc(d, c);
        Regroup(" ", Collapse(d), [c]);
        Regroup(" ", Collapse(d), " ");
      }
    } else {
      assert t[1..] == s[1..] + [c] && t[0] == s[0];
      CollapseSnoc(s[1..], c);
      Regroup([s[0]], Collapse(s[1..]), [c]);
      Regroup([s[0]], Collapse(s[1..]), " ");
      if |s| == 1 { assert s[1..] == ""; } else { assert s[1..][|s| - 2] == s[|s| - 1]; }
    }
  }

  lemma {:induction false} AllBlank(s: string)
    requires DropBlanks(s) == ""
    ensures forall i :: 0 <= i < |s| ==> IsBlank(s[i])
  {
    if s != "" { AllBlank(s[1..]); }
  }

  lemma {:induction false} LastAfterDrop(s: string)
    requires DropBlanks(s) != ""
    ensures s != "" && DropBlanks(s)[|DropBlanks(s)| - 1] == s[|s| - 1]
  {
    if s != "" && IsBlank(s[0]) { LastAfterDrop(s[1..]); }
  }

  lemma TrimRightSnoc(s: string, c: char)
    ensures TrimRight(s + [c]) == if IsSpace(c) then TrimRight(s) else s + [c]
  {
    assert (s + [c])[..|s|] == s;
  }

  lemma {:induction false} CollapseTrimRight(s: string)
    ensures TrimRight(Collapse(s)) == Collapse(TrimRight(s))
  {
    if s != "" {
      var t, c := s[..|s| - 1], s[|s| - 1];
      assert s == t + [c];
      CollapseTrimRight(t);
      CollapseSnoc(t, c);
      TrimRightSnoc(Collapse(t), c);
      TrimRightSnoc(Collapse(t), ' ');
    }
  }

  lemma CollapseTrim(s: string)
    ensures TrimSpace(Collapse(s)) == Collapse(TrimSpace(s))
  {
    CollapseTrimLeft(s);
    CollapseTrimRight(TrimLeft(s));
  }

  /**
   Outside the literals the result of formatSQL is the words of the trimmed text, with single spaces between them:
   what lies between runs of space, tab, line feed, form feed and carriage return.
   */
  lemma FormattedIsWords(s: string)
    requires MarkerSafe(s)
    ensures Mask(Formatted(s), MARKER) == Join(Solids(TrimSpace(Mask(s, MARKER))), " ")
  {
    FormattedKeepsLiterals(s);
    CollapseTrim(Mask(s, MARKER));
    TrimSpaceTrims(Mask(s, MARKER));
    hide Mask, Formatted, TrimSpace, Collapse, Solids, Join;
    CollapseIsJoin(TrimSpace(Mask(s, MARKER)));
  }

  predicate Word(w: string) { w != "" && forall i :: 0 <= i < |w| ==> w[i] !in " \t\n\U{0c}\r" }

  predicate Tidy(r: string) {
    && (forall i :: 0 <= i < |r| ==> r[i] !in "\t\n\U{0c}\r")
    && (forall i :: 0 <= i < |r| - 1 ==> r[i] != ' ' || r[i + 1] != ' ')
    && (r != "" ==> r[0] != ' ' && r[|r| - 1] != ' ')
  }

  lemma WordBefore(w: string, tail: string)
    requires Word(w) && Tidy(tail) && tail != ""
    ensures Tidy(w + " " + tail)
  {
    var r := w + " " + tail;
    assert r[|w|] == ' ';
    assert forall i :: 0 <= i < |w| ==> r[i] == w[i];
    assert forall i :: |w| < i < |r| ==> r[i] == tail[i - |w| - 1];
  }

  lemma {:induction false} JoinedWords(ws: seq<string>)
    requires forall w :: w in ws ==> Word(w)
    ensures Tidy(Join(ws, " ")) && (ws != [] ==> Join(ws, " ") != "")
  {
    if ws != [] { assert ws[0] in ws; }
    if |ws| > 1 {
      JoinedWords(ws[1..]);
      WordBefore(ws[0], Join(ws[1..], " "));
    }
  }

  /** So it holds no tab, line feed, form feed or carriage return, no two spaces in a row, and none at its ends. */
  lemma FormattedIsTidy(s: string)
    requires MarkerSafe(s)
    ensures var r := Mask(Formatted(s), MARKER);
            && (forall c :: c in r ==> c !in "\t\n\U{0c}\r")
            && (forall i :: 0 <= i < |r| - 1 ==> r[i] != ' ' || r[i + 1] != ' ')
            && (r != "" ==> r[0] != ' ' && r[|r| - 1] != ' ')
  {
    FormattedIsWords(s);
    var ws := Solids(TrimSpace(Mask(s, MARKER)));
    SolidsAreSolid(TrimSpace(Mask(s, MARKER)));
    hide Mask, Formatted, TrimSpace, Solids;
    JoinedWords(ws);
  }

  // ----- literals -----

  lemma LiteralAhead(q: char, w: string, b: string)
    requires (q == '\'' || q == '"') && q !in w
    ensures var lit := [q] + w + [q]; Literals(lit + b) == [lit] + Literals(b)
  {
    hide Literals, CloserAt;
    var lit := [q] + w + [q];
    var s := lit + b;
    assert s[0] == q && s[|w| + 1] == q && s[1..|w| + 1] == w && s[1..][|w|] == q;
    LiteralLenIs(s, |lit|);
    assert s[..|lit|] == lit && s[|lit|..] == b;
    LiteralTaken(s);
  }

  lemma LiteralTaken(s: string)
    requires LiteralLen(s) > 0
    ensures Literals(s) == [s[..LiteralLen(s)]] + Literals(s[LiteralLen(s)..])
  {
  }

  /** The first literal of a text goes from its first quote to the next of the same kind. */
  lemma {:induction false} FirstLiteral(a: string, q: char, w: string, b: string)
    requires '\'' !in a && '"' !in a && (q == '\'' || q == '"') && q !in w
    ensures Literals(a + ([q] + w + [q] + b)) == [[q] + w + [q]] + Literals(b)
  {
    var lit := [q] + w + [q];
    if a == "" {
      LiteralAhead(q, w, b);
      assert a + (lit + b) == lit + b;
    } else {
      var s := a + (lit + b);
      assert a[0] in a && s[0] == a[0] && s[1..] == a[1..] + (lit + b);
      FirstLiteral(a[1..], q, w, b);
    }
  }

  /** A quote without a partner begins none. */
  lemma {:induction false} LoneQuote(a: string, q: char, b: string)
    requires '\'' !in a && '"' !in a && (q == '\'' || q == '"') && q !in b
    ensures Literals(a + ([q] + b)) == Literals(b)
  {
    var s := a + ([q] + b);
    if a == "" {
      assert s == [q] + b && s[1..] == b;
    } else {
      assert a[0] in a && s[0] == a[0] && s[1..] == a[1..] + ([q] + b);
      LoneQuote(a[1..], q, b);
    }
  }

  lemma {:induction false} NoQuoteNoLiteral(a: string)
    requires '\'' !in a && '"' !in a
    ensures Literals(a) == []
  {
    if a != "" {
      assert a[0] in a;
      NoQuoteNoLiteral(a[1..]);
    }
  }
}
