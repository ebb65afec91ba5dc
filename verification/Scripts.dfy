/** Texts of several statements, and the statements that BatchExec cuts them into. */
module Scripts {
  import opened Strings
  import opened SqlText
  import opened SqlTextLaws
  import opened ClosedText
  import opened BatchExec

  function Terminated(tables: seq<string>): (r: seq<string>)
    ensures |r| == |tables|
  {
    if tables == [] then [] else [tables[0] + ";"] + Terminated(tables[1..])
  }

  function Script(tables: seq<string>): string { Join(Terminated(tables), "\n\n") }

  lemma {:induction false} TerminatedConcat(ts: seq<string>, us: seq<string>)
    ensures Terminated(ts + us) == Terminated(ts) + Terminated(us)
  {
    if ts == [] {
      assert ts + us == us;
    } else {
      assert (ts + us)[1..] == ts[1..] + us;
      TerminatedConcat(ts[1..], us);
    }
  }

  // ----- statements -----

  /** A statement on its own: closed, without a number sign, and with no space or semicolon at its ends. */
  predicate Statement(s: string) {
    s != "" && Trimmed(s) && Closed(s) && '#' !in s && s[0] != ';' && s[|s| - 1] != ';'
  }

  predicate NoSemicolons(ss: seq<string>) { forall s :: s in ss ==> ';' !in s }

  predicate AllStatements(ss: seq<string>) { forall s :: s in ss ==> Statement(s) }

  function NormalisedAll(ss: seq<string>): (r: seq<string>)
    ensures |r| == |ss|
  {
    if ss == [] then [] else [Normalised(ss[0])] + NormalisedAll(ss[1..])
  }

  /** The scanned script after its first statement. */
  function Tail(ss: seq<string>): string {
    if ss == [] then "" else " " + Scan(ss[0]) + ";" + Tail(ss[1..])
  }

  lemma BlankIsSpace(c: char)
    ensures IsBlank(c) ==> IsSpace(c)
  {
  }

  lemma ScriptStarts(ss: seq<string>)
    requires ss != [] && Statement(ss[0])
    ensures var s := Script(ss); s != "" && s[0] == ss[0][0] && !IsBlank(s[0])
  {
    BlankIsSpace(ss[0][0]);
    assert Terminated(ss)[0] == ss[0] + ";";
  }

  lemma ScanPunctuation()
    ensures Scan(";") == ";" && Scan(";\n\n") == "; "
  {
    assert ";"[1..] == "";
    assert ";\n\n"[1..] == "\n\n" && "\n\n"[1..] == "\n" && "\n"[1..] == "";
    assert DropBlanks("\n\n") == "";
    assert Scan("\n\n") == " ";
  }

  lemma ScriptSplit(s: string, rest: string)
    ensures s + ";" + "\n\n" + rest == s + (";\n\n" + rest)
  {
    assert ";\n\n" == ";" + "\n\n";
  }

  lemma ScanFirst(s: string, rest: string)
    requires Statement(s) && rest != "" && !IsBlank(rest[0])
    ensures Scan(s + ";" + "\n\n" + rest) == Scan(s) + "; " + Scan(rest)
  {
    ScanPunctuation();
    ClosedPlain(";\n\n");
    ScanConcat(";\n\n", rest);
    ScanConcat(s, ";\n\n" + rest);
    ScriptSplit(s, rest);
    Regroup(Scan(s), "; ", Scan(rest));
    hide *;
  }

  lemma {:induction false} ScanScript(ss: seq<string>)
    requires ss != [] && AllStatements(ss)
    ensures Scan(Script(ss)) == Scan(ss[0]) + ";" + Tail(ss[1..])
  {
    var ts := Terminated(ss);
    assert ss[0] in ss;
    if |ss| == 1 {
      assert Script(ss) == ss[0] + ";";
      ScanPunctuation();
      ScanConcat(ss[0], ";");
    } else {
      var rest := ss[1..];
      assert rest[0] in ss && ts[1..] == Terminated(rest);
      assert Script(ss) == ss[0] + ";" + "\n\n" + Script(rest);
      ScriptStarts(rest);
      assert Statement(rest[0]) && AllStatements(rest);
      ScanFirst(ss[0], Script(rest));
      assert "; " == ";" + " ";
      ScanScript(rest);
      Rejoin(Scan(ss[0]), ";", " ", Scan(rest[0]), ";", Tail(rest[1..]));
    }
  }

  lemma Rejoin(x: string, p: string, q: string, a: string, b: string, c: string)
    ensures x + (p + q) + (a + b + c) == x + p + (q + a + b + c)
  {
  }

  lemma {:induction false} ScriptHasNoHash(ss: seq<string>)
    requires AllStatements(ss)
    ensures '#' !in Script(ss)
  {
    if ss != [] {
      assert ss[0] in ss && AllStatements(ss[1..]);
      ScriptHasNoHash(ss[1..]);
    }
  }

  /** What stands between two semicolons. */
  lemma {:induction false} TailStatements(ss: seq<string>)
    requires AllStatements(ss) && NoSemicolons(ss)
    ensures NonBlank(Split(Tail(ss), ";")) == NormalisedAll(ss)
  {
    if ss == [] {
      SplitNone("", ";", ';');
      assert [""][1..] == [];
    } else {
      var s := ss[0];
      assert s in ss && AllStatements(ss[1..]) && NoSemicolons(ss[1..]);
      TailStatements(ss[1..]);
      ScanKeepsChar(s, ';');
      SplitFirst(" " + Scan(s), ";", Tail(ss[1..]), ';');
      NormalisedBehindSpace(s);
    }
  }

  lemma NormalisedBehindSpace(s: string)
    requires Statement(s)
    ensures TrimSpace(" " + Scan(s)) == TrimSpace(Scan(s)) == Normalised(s) != ""
  {
    assert (" " + Scan(s))[1..] == Scan(s);
    ScanHead(s);
    BlankIsSpace(s[0]);
    TrimKeepsStart(Scan(s));
  }

  lemma TrimKeepsStart(s: string)
    requires s != "" && !IsSpace(s[0])
    ensures TrimSpace(s) != ""
  {
  }

  lemma ScannedTrimmed(ss: seq<string>)
    requires ss != [] && Statement(ss[0])
    ensures var t := Scan(ss[0]) + ";" + Tail(ss[1..]); TrimSpace(t) == t
  {
    ScanHead(ss[0]);
    BlankIsSpace(ss[0][0]);
    EndsInSemicolon(Scan(ss[0]), ss[1..]);
    TrimSpaceTrims(Scan(ss[0]) + ";" + Tail(ss[1..]));
  }

  lemma FirstStatement(s: string, tail: string)
    requires Statement(s) && ';' !in s
    ensures NonBlank(Split(Scan(s) + ";" + tail, ";")) == [Normalised(s)] + NonBlank(Split(tail, ";"))
  {
    NormalisedBehindSpace(s);
    ScanKeepsChar(s, ';');
    SplitFirst(Scan(s), ";", tail, ';');
  }

  lemma {:induction false} EndsInSemicolon(a: string, ss: seq<string>)
    requires a != "" && !IsSpace(a[0])
    ensures Trimmed(a + ";" + Tail(ss))
  {
    TailEnd(ss);
    var s := a + ";" + Tail(ss);
    assert s[0] == a[0];
    assert s[|s| - 1] == ';';
  }

  lemma {:induction false} TailEnd(ss: seq<string>)
    ensures Tail(ss) != "" ==> Tail(ss)[|Tail(ss)| - 1] == ';'
  {
    if ss != [] { TailEnd(ss[1..]); }
  }

  lemma CleanScript(ss: seq<string>)
    requires AllStatements(ss) && NoSemicolons(ss)
    ensures NonBlank(Split(Normalised(Script(ss)), ";")) == NormalisedAll(ss)
  {
    if ss == [] {
      SplitNone("", ";", ';');
      assert [""][1..] == [];
    } else {
      assert ss[0] in ss && AllStatements(ss[1..]) && NoSemicolons(ss[1..]);
      ScanScript(ss);
      ScannedTrimmed(ss);
      TailStatements(ss[1..]);
      FirstStatement(ss[0], Tail(ss[1..]));
    }
  }

  // ----- semicolons inside statements -----

  lemma {:induction false} NonBlankConcat(x: seq<string>, y: seq<string>)
    ensures NonBlank(x + y) == NonBlank(x) + NonBlank(y)
  {
    if x == [] {
      assert x + y == y;
    } else {
      NonBlankConcat(x[1..], y);
      assert (x + y)[1..] == x[1..] + y;
      var stmt := TrimSpace(x[0]);
      hide TrimSpace;
      Regroup(if stmt != "" then [stmt] else [], NonBlank(x[1..]), NonBlank(y));
    }
  }

  lemma {:induction false} SplitAcross(a: string, b: string)
    ensures Split(a + ";" + b, ";") == Split(a, ";") + Split(b, ";")
    decreases |a|
  {
    hide Split;
    if ';' !in a {
      SplitNone(a, ";", ';');
      SplitFirst(a, ";", b, ';');
    } else {
      var x, y := FirstSemicolon(a);
      SplitAcross(y, b);
      SplitFirst(x, ";", y, ';');
      SplitFirst(x, ";", y + ";" + b, ';');
      Regroup(x + ";", y + ";", b);
      Regroup(x + ";", y, ";");
      Regroup([x], Split(y, ";"), Split(b, ";"));
    }
  }

  lemma {:induction false} FirstSemicolon(s: string) returns (x: string, y: string)
    requires ';' in s
    ensures s == x + ";" + y && ';' !in x && |y| < |s|
  {
    if s[0] == ';' {
      x, y := "", s[1..];
    } else {
      x, y := FirstSemicolon(s[1..]);
      x := [s[0]] + x;
    }
  }

  function Pieces(s: string): seq<string> { NonBlank(Split(s, ";")) }

  lemma BlankPiece(s: string)
    ensures NonBlank([s]) == if TrimSpace(s) != "" then [TrimSpace(s)] else []
  {
    assert [s][1..] == [];
  }

  lemma EndsNotBlank(s: string)
    requires s != "" && !IsSpace(s[|s| - 1])
    ensures TrimSpace(s) != ""
  {
    TrimLeftKeepsEnd(s);
  }

  lemma {:induction false} TrimLeftKeepsEnd(s: string)
    requires s != "" && !IsSpace(s[|s| - 1])
    ensures TrimLeft(s) != "" && !IsSpace(TrimLeft(s)[|TrimLeft(s)| - 1])
  {
    if IsSpace(s[0]) { TrimLeftKeepsEnd(s[1..]); }
  }

  /** Text that ends in something leaves at least one piece. */
  lemma {:induction false} LastPiece(s: string)
    requires s != "" && !IsSpace(s[|s| - 1]) && s[|s| - 1] != ';'
    ensures |Pieces(s)| >= 1
    decreases |s|
  {
    if ';' !in s {
      SplitNone(s, ";", ';');
      BlankPiece(s);
      EndsNotBlank(s);
    } else {
      var x, y := FirstSemicolon(s);
      assert y != "" && y[|y| - 1] == s[|s| - 1];
      LastPiece(y);
      SplitAcross(x, y);
      NonBlankConcat(Split(x, ";"), Split(y, ";"));
    }
  }

  lemma SpacedPiece(x: string)
    requires x != "" && !IsSpace(x[0])
    ensures TrimSpace(" " + x) != "" && TrimSpace(x) != ""
  {
    assert (" " + x)[1..] == x;
    TrimKeepsStart(x);
    assert TrimLeft(" " + x) == TrimLeft(x) == x;
  }

  /** A semicolon inside a text makes at least two pieces of it. */
  lemma TwoPieces(pad: string, s: string)
    requires pad == "" || pad == " "
    requires s != "" && !IsSpace(s[0]) && s[0] != ';' && !IsSpace(s[|s| - 1]) && s[|s| - 1] != ';'
    ensures |Pieces(pad + s)| >= if ';' in s then 2 else 1
  {
    if ';' !in s {
      assert (pad + s)[|pad + s| - 1] == s[|s| - 1];
      LastPiece(pad + s);
    } else {
      var x, y := FirstSemicolon(s);
      assert x != "" && x[0] == s[0];
      assert y != "" && y[|y| - 1] == s[|s| - 1];
      LastPiece(y);
      SpacedPiece(x);
      assert "" + x == x;
      TwoParts(pad + x, y);
      Regroup(pad, x + ";", y);
      Regroup(pad, x, ";");
    }
  }

  lemma TwoParts(x: string, y: string)
    requires ';' !in x && TrimSpace(x) != "" && |Pieces(y)| >= 1
    ensures |Pieces(x + ";" + y)| >= 2
  {
    SplitNone(x, ";", ';');
    BlankPiece(x);
    SplitAcross(x, y);
    hide Split, NonBlank, TrimSpace;
    NonBlankConcat(Split(x, ";"), Split(y, ";"));
  }

  /** One step of the scanner: it reads k characters and writes j. */
  lemma ScanStep(s: string) returns (k: nat, j: nat)
    requires s != ""
    ensures 1 <= k <= |s| && 1 <= j <= |Scan(s)| && Scan(s)[j..] == Scan(s[k..])
    ensures k == |s| && !IsBlank(s[k - 1]) ==> Scan(s)[j - 1] == s[k - 1]
  {
    ScanHead(s);
    var n := LiteralLen(s);
    if n > 0 {
      k, j := n, n;
      assert Scan(s)[..n][n - 1] == s[..n][n - 1];
    } else if IsBlank(s[0]) {
      k := BlankRun(s);
      j := 1;
    } else {
      k, j := 1, 1;
    }
  }

  lemma {:induction false} BlankRun(s: string) returns (k: nat)
    requires s != "" && IsBlank(s[0])
    ensures 1 <= k <= |s| && s[k..] == DropBlanks(s) && IsBlank(s[k - 1])
  {
    if |s| > 1 && IsBlank(s[1]) {
      k := BlankRun(s[1..]);
      k := k + 1;
    } else {
      k := 1;
    }
  }

  lemma {:induction false} ScanLast(s: string)
    requires s != "" && !IsBlank(s[|s| - 1])
    ensures Scan(s) != "" && Scan(s)[|Scan(s)| - 1] == s[|s| - 1]
    decreases |s|
  {
    hide Scan, IsBlank;
    var k, j := ScanStep(s);
    var t := Scan(s);
    ScanNothing();
    if k < |s| {
      ScanLast(s[k..]);
      SuffixLast(s, k);
      SuffixLast(t, j);
    } else {
      assert s[k..] == "" && |t[j..]| == |t| - j;
    }
  }

  lemma ScanNothing()
    ensures Scan("") == ""
  {
  }

  lemma SuffixLast(s: string, n: nat)
    requires n < |s|
    ensures s[n..] != "" && s[n..][|s[n..]| - 1] == s[|s| - 1]
  {
  }

  /** One statement of a script, as it is scanned. */
  lemma StatementPieces(pad: string, s: string)
    requires Statement(s) && (pad == "" || pad == " ")
    ensures |Pieces(pad + Scan(s))| >= if ';' in s then 2 else 1
  {
    BlankIsSpace(s[0]);
    BlankIsSpace(s[|s| - 1]);
    ScanHead(s);
    ScanLast(s);
    ScanKeepsChar(s, ';');
    assert LiteralLen(s) > 0 ==> Scan(s)[..LiteralLen(s)][0] == s[..LiteralLen(s)][0];
    TwoPieces(pad, Scan(s));
  }

  lemma {:induction false} TailPieces(ss: seq<string>)
    requires AllStatements(ss)
    ensures |Pieces(Tail(ss))| >= |ss| + if NoSemicolons(ss) then 0 else 1
  {
    if ss != [] {
      assert ss[0] in ss && AllStatements(ss[1..]) && ss == [ss[0]] + ss[1..];
      StatementPieces(" ", ss[0]);
      TailPieces(ss[1..]);
      SplitAcross(" " + Scan(ss[0]), Tail(ss[1..]));
      NonBlankConcat(Split(" " + Scan(ss[0]), ";"), Split(Tail(ss[1..]), ";"));
    }
  }

  lemma CutScript(ss: seq<string>)
    requires AllStatements(ss) && !NoSemicolons(ss)
    ensures |NonBlank(Split(Normalised(Script(ss)), ";"))| > |ss|
  {
    assert ss[0] in ss && AllStatements(ss[1..]) && ss == [ss[0]] + ss[1..];
    ScanScript(ss);
    ScannedTrimmed(ss);
    StatementPieces("", ss[0]);
    assert "" + Scan(ss[0]) == Scan(ss[0]);
    TailPieces(ss[1..]);
    SplitAcross(Scan(ss[0]), Tail(ss[1..]));
    NonBlankConcat(Split(Scan(ss[0]), ";"), Split(Tail(ss[1..]), ";"));
  }

  /**
   BatchExec makes of a script exactly its statements, each normalised on its own, in their order, if and only if no
   statement holds a semicolon, be it in a string literal: otherwise there are more.
   */
  lemma ScriptStatementsExactlyWhen(ss: seq<string>)
    requires AllStatements(ss)
    ensures StatementsOf(Script(ss)) == NormalisedAll(ss) <==> NoSemicolons(ss)
  {
    ScriptHasNoHash(ss);
    NoHashIsMarkerSafe(Script(ss));
    if NoSemicolons(ss) { CleanScript(ss); } else { CutScript(ss); }
  }
}
