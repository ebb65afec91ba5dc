/** connection.go, formatSQL: mask the string literals, collapse white space, put the literals back. */
module SqlText {
  import opened Strings

  /** The stand-in written over every literal. The lemmas below hold for any such word. */
  const MARKER: string := "##STRING_LITERAL##"

  predicate IsMarker(m: string) {
    m != "" && m[0] == '#' && forall c :: c in m ==> !IsSpace(c) && !IsQuote(c)
  }

  predicate IsQuote(c: char) { c == '\'' || c == '"' }

  /** The class \s of Go's regular expressions. */
  predicate IsBlank(c: char) { c == '\t' || c == '\n' || c == '\U{0c}' || c == '\r' || c == ' ' }

  function CloserAt(s: string, q: char): (i: nat)
    requires q in s
    ensures i < |s| && s[i] == q && q !in s[..i]
  {
    if s[0] == q then 0 else
      var i := CloserAt(s[1..], q);
      assert s[..i + 1] == [s[0]] + s[1..][..i];
      i + 1
  }

  /** Length of the match of '[^']*'|"[^"]*" at the start of s, 0 when there is none. */
  function LiteralLen(s: string): (n: nat)
    ensures n <= |s| && n != 1
    ensures n > 0 <==> s != "" && IsQuote(s[0]) && s[0] in s[1..]
    ensures n > 0 ==> s[n - 1] == s[0] && s[0] !in s[1..n - 1]
  {
    if s != "" && IsQuote(s[0]) && s[0] in s[1..] then CloserAt(s[1..], s[0]) + 2 else 0
  }

  /** re.FindAllString */
  function Literals(s: string): seq<string>
    decreases |s|
  {
    if s == "" then []
    else
      var n := LiteralLen(s);
      if n > 0 then [s[..n]] + Literals(s[n..]) else Literals(s[1..])
  }

  /** re.ReplaceAllString with the marker */
  function Mask(s: string, m: string): string
    decreases |s|
  {
    if s == "" then ""
    else
      var n := LiteralLen(s);
      if n > 0 then m + Mask(s[n..], m) else [s[0]] + Mask(s[1..], m)
  }

  function DropBlanks(s: string): (r: string)
    ensures |r| <= |s|
    ensures s != "" && IsBlank(s[0]) ==> |r| < |s|
    ensures r != "" ==> !IsBlank(r[0])
  {
    if s != "" && IsBlank(s[0]) then DropBlanks(s[1..]) else s
  }

  /** \s+ becomes one space */
  function Collapse(s: string): string
    decreases |s|
  {
    if s == "" then ""
    else if IsBlank(s[0]) then " " + Collapse(DropBlanks(s))
    else [s[0]] + Collapse(s[1..])
  }

  /** The restore loop: each literal in turn replaces the first marker left in the text. */
  function Restore(t: string, literals: seq<string>, m: string): string
    decreases |literals|
  {
    if literals == [] then t else Restore(ReplaceFirst(t, m, literals[0]), literals[1..], m)
  }

  /** The intended meaning, in one pass and without markers. */
  function Scan(s: string): string
    decreases |s|
  {
    if s == "" then ""
    else
      var n := LiteralLen(s);
      if n > 0 then s[..n] + Scan(s[n..])
      else if IsBlank(s[0]) then " " + Scan(DropBlanks(s))
      else [s[0]] + Scan(s[1..])
  }

  /** No marker starts in `done` when a marker is written right after it. */
  predicate NoEarlierMarker(done: string, m: string) { Index(done + m, m) == |done| }

  /** Before each literal of s, the text in front of it (done, then s) holds nothing that reads as a marker. */
  predicate Safe(done: string, s: string, m: string)
    decreases |s|
  {
    if s == "" then true
    else
      var n := LiteralLen(s);
      if n > 0 then NoEarlierMarker(done, m) && Safe(done + s[..n], s[n..], m)
      else if IsBlank(s[0]) then Safe(done + " ", DropBlanks(s), m)
      else Safe(done + [s[0]], s[1..], m)
  }

  predicate MarkerSafe(s: string) { Safe("", s, MARKER) }

  function Normalised(s: string): string { TrimSpace(Scan(s)) }

  /** What formatSQL computes. */
  function Formatted(s: string): string {
    TrimSpace(Restore(Collapse(Mask(s, MARKER)), Literals(s), MARKER))
  }

  /** connection.go:141-161. */
  method FormatSQL(sql: string) returns (r: string)
    ensures r == Formatted(sql)
    ensures r == Normalised(sql) <==> MarkerSafe(sql)
  {
    var stringLiterals := Literals(sql);
    var placeholderSQL := Mask(sql, MARKER);
    var standardizedSQL := Collapse(placeholderSQL);
    for i := 0 to |stringLiterals|
      invariant Restore(standardizedSQL, stringLiterals[i..], MARKER)
             == Restore(Collapse(Mask(sql, MARKER)), stringLiterals, MARKER)
    {
      assert stringLiterals[i..][1..] == stringLiterals[i + 1..];
      standardizedSQL := ReplaceFirst(standardizedSQL, MARKER, stringLiterals[i]);
    }
    r := TrimSpace(standardizedSQL);
    FormatIsScanExactly(sql);
  }

  // ----- the restore loop refines the scanner -----

  lemma {:induction false} MaskDropBlanks(s: string, m: string)
    requires IsMarker(m)
    ensures DropBlanks(Mask(s, m)) == Mask(DropBlanks(s), m)
    decreases |s|
  {
    if s != "" && IsBlank(s[0]) {
      MaskDropBlanks(s[1..], m);
      assert Mask(s, m)[1..] == Mask(s[1..], m);
    } else if s != "" {
      assert Mask(s, m)[0] == (if LiteralLen(s) > 0 then '#' else s[0]);
    }
  }

  lemma {:induction false} CollapseSolid(t: string, s: string)
    requires forall c :: c in t ==> !IsBlank(c)
    ensures Collapse(t + s) == t + Collapse(s)
  {
    if t == "" {
      assert t + s == s;
    } else {
      CollapseSolid(t[1..], s);
      assert (t + s)[1..] == t[1..] + s;
      assert t + Collapse(s) == [t[0]] + (t[1..] + Collapse(s));
    }
  }

  /** The masked and collapsed text. */
  function Skeleton(s: string, m: string): string { Collapse(Mask(s, m)) }

  lemma SkeletonStep(s: string, m: string)
    requires s != "" && IsMarker(m)
    ensures Skeleton(s, m) ==
            var n := LiteralLen(s);
            if n > 0 then m + Skeleton(s[n..], m)
            else if IsBlank(s[0]) then " " + Skeleton(DropBlanks(s), m)
            else [s[0]] + Skeleton(s[1..], m)
  {
    var n := LiteralLen(s);
    if n > 0 {
      CollapseSolid(m, Mask(s[n..], m));
    } else {
      assert Mask(s, m)[1..] == Mask(s[1..], m);
      if IsBlank(s[0]) {
        MaskDropBlanks(s, m);
      }
    }
  }

  /** Whether an earlier marker exists does not depend on what follows. */
  lemma FirstMarker(done: string, rest: string, m: string)
    ensures NoEarlierMarker(done, m) ==> Index(done + m + rest, m) == |done|
    ensures !NoEarlierMarker(done, m) ==> 0 <= Index(done + m + rest, m) == Index(done + m, m) < |done|
  {
    var a, b := done + m, done + m + rest;
    forall i | 0 <= i <= |done| ensures Occurs(a, m, i) == Occurs(b, m, i) {
      assert a[i..i + |m|] == b[i..i + |m|];
    }
    assert Occurs(a, m, |done|);
    IndexIs(b, m, Index(a, m));
  }

  lemma ReplaceAt(a: string, m: string, b: string, with: string)
    requires Index(a + m + b, m) == |a|
    ensures ReplaceFirst(a + m + b, m, with) == a + with + b
  {
    hide Index;
    var s := a + m + b;
    assert s[..|a|] == a && s[|a| + |m|..] == b;
  }

  /** One turn of the loop: the literal goes where the first marker stands. */
  lemma RestoreTurn(s: string, t: string, m: string)
    requires LiteralLen(s) > 0
    ensures var n := LiteralLen(s);
            Restore(t, Literals(s), m) == Restore(ReplaceFirst(t, m, s[..n]), Literals(s[n..]), m)
  {
    var n := LiteralLen(s);
    assert Literals(s)[1..] == Literals(s[n..]);
  }

  lemma RestoreLiteral(done: string, s: string, m: string)
    requires IsMarker(m) && LiteralLen(s) > 0 && NoEarlierMarker(done, m)
    ensures var n := LiteralLen(s);
            Restore(done + Skeleton(s, m), Literals(s), m)
            == Restore(done + s[..n] + Skeleton(s[n..], m), Literals(s[n..]), m)
  {
    var n := LiteralLen(s);
    var rest := Skeleton(s[n..], m);
    SkeletonStep(s, m);
    Regroup(done, m, rest);
    FirstMarker(done, rest, m);
    ReplaceAt(done, m, rest, s[..n]);
    RestoreTurn(s, done + m + rest, m);
  }

  lemma RestoreOther(done: string, s: string, m: string)
    requires IsMarker(m) && s != "" && LiteralLen(s) == 0
    ensures var c := if IsBlank(s[0]) then " " else [s[0]];
            var rest := if IsBlank(s[0]) then DropBlanks(s) else s[1..];
            && done + Skeleton(s, m) == done + c + Skeleton(rest, m)
            && Literals(s) == Literals(rest)
            && done + Scan(s) == done + c + Scan(rest)
  {
    SkeletonStep(s, m);
    var c := if IsBlank(s[0]) then " " else [s[0]];
    var rest := if IsBlank(s[0]) then DropBlanks(s) else s[1..];
    LiteralsDropBlanks(s);
    Regroup(done, c, Skeleton(rest, m));
    Regroup(done, c, Scan(rest));
  }

  lemma {:induction false} LiteralsDropBlanks(s: string)
    ensures Literals(DropBlanks(s)) == Literals(s)
  {
    if s != "" && IsBlank(s[0]) {
      LiteralsDropBlanks(s[1..]);
    }
  }

  /** The invariant of the restore loop: behind the restored part, the markers left stand where literals stood. */
  lemma {:induction false} RestoreIsScan(done: string, s: string, m: string)
    requires IsMarker(m) && Safe(done, s, m)
    ensures Restore(done + Skeleton(s, m), Literals(s), m) == done + Scan(s)
    decreases |s|
  {
    if s != "" {
      var n := LiteralLen(s);
      if n > 0 {
        RestoreLiteral(done, s, m);
        RestoreIsScan(done + s[..n], s[n..], m);
        Regroup(done, s[..n], Scan(s[n..]));
      } else {
        RestoreOther(done, s, m);
        if IsBlank(s[0]) {
          RestoreIsScan(done + " ", DropBlanks(s), m);
        } else {
          RestoreIsScan(done + [s[0]], s[1..], m);
        }
      }
    }
  }

  // ----- and only then -----

  /** r and e agree up to k, where r has a quote over e's '#'. */
  predicate Diverge(r: string, e: string, k: nat) {
    k < |r| && k < |e| && r[..k] == e[..k] && IsQuote(r[k]) && e[k] == '#'
  }

  /** A quote that stands before every marker stays, and so does the text before it. */
  lemma {:induction false} FrozenPrefix(t: string, literals: seq<string>, k: nat, m: string)
    requires IsMarker(m) && k < |t| && IsQuote(t[k])
    requires forall i :: 0 <= i && i + |m| <= k ==> !Occurs(t, m, i)
    ensures var r := Restore(t, literals, m); k < |r| && r[..k] == t[..k] && r[k] == t[k]
    decreases |literals|
  {
    if literals != [] {
      var i := Index(t, m);
      var t' := ReplaceFirst(t, m, literals[0]);
      if i >= 0 {
        OccurrenceMissesQuote(t, i, k, m);
        assert i > k;
        forall j | 0 <= j && j + |m| <= k ensures !Occurs(t', m, j) {
          assert t'[j..j + |m|] == t[j..j + |m|];
          assert !Occurs(t, m, j);
        }
      }
      FrozenPrefix(t', literals[1..], k, m);
    }
  }

  lemma OccurrenceMissesQuote(t: string, i: nat, k: nat, m: string)
    requires IsMarker(m) && k < |t| && IsQuote(t[k]) && Occurs(t, m, i)
    ensures i > k || i + |m| <= k
  {
    forall x | i <= x < i + |m| ensures !IsQuote(t[x]) {
      assert t[x] == t[i..i + |m|][x - i];
      assert m[x - i] in m;
    }
  }

  /** Putting w where the first marker stands moves no marker in front of it. */
  lemma ReplacedPrefix(t: string, w: string, m: string)
    requires m != "" && w != "" && Index(t, m) >= 0
    ensures var k := Index(t, m);
            var t' := ReplaceFirst(t, m, w);
            k < |t'| && t'[..k] == t[..k] && t'[k] == w[0] && t[k] == m[0]
            && forall j :: 0 <= j && j + |m| <= k ==> !Occurs(t', m, j)
  {
    var k := Index(t, m);
    var t' := ReplaceFirst(t, m, w);
    assert t[k] == t[k..k + |m|][0];
    forall j | 0 <= j && j + |m| <= k ensures !Occurs(t', m, j) {
      assert t'[j..j + |m|] == t[j..j + |m|];
      assert !Occurs(t, m, j);
    }
  }

  lemma MisplacedLiteral(done: string, s: string, m: string) returns (k: nat)
    requires IsMarker(m) && LiteralLen(s) > 0 && !NoEarlierMarker(done, m)
    ensures Diverge(Restore(done + Skeleton(s, m), Literals(s), m), done + Scan(s), k)
  {
    var n := LiteralLen(s);
    var rest := Skeleton(s[n..], m);
    var t := done + m + rest;
    SkeletonStep(s, m);
    Regroup(done, m, rest);
    RestoreTurn(s, t, m);
    FirstMarker(done, rest, m);
    k := Index(t, m);
    ReplacedPrefix(t, s[..n], m);
    FrozenPrefix(ReplaceFirst(t, m, s[..n]), Literals(s[n..]), k, m);
    PrefixOf(done, Scan(s), k);
    PrefixOf(done, m + rest, k);
  }

  lemma PrefixOf(a: string, b: string, k: nat)
    requires k < |a|
    ensures (a + b)[..k] == a[..k] && (a + b)[k] == a[k]
  {
  }

  lemma {:induction false} UnsafeDiverges(done: string, s: string, m: string) returns (k: nat)
    requires IsMarker(m) && !Safe(done, s, m)
    ensures Diverge(Restore(done + Skeleton(s, m), Literals(s), m), done + Scan(s), k)
    decreases |s|
  {
    var n := LiteralLen(s);
    if n > 0 {
      if !NoEarlierMarker(done, m) {
        k := MisplacedLiteral(done, s, m);
      } else {
        RestoreLiteral(done, s, m);
        k := UnsafeDiverges(done + s[..n], s[n..], m);
        Regroup(done, s[..n], Scan(s[n..]));
      }
    } else {
      RestoreOther(done, s, m);
      if IsBlank(s[0]) {
        k := UnsafeDiverges(done + " ", DropBlanks(s), m);
      } else {
        k := UnsafeDiverges(done + [s[0]], s[1..], m);
      }
    }
  }

  /** Trimming does not hide the difference. */
  lemma {:induction false} TrimDiverge(r: string, e: string, k: nat)
    requires Diverge(r, e, k)
    ensures TrimSpace(r) != TrimSpace(e)
    decreases k
  {
    if IsSpace(r[0]) {
      assert k > 0 && e[0] == e[..k][0] == r[..k][0];
      assert r[1..][..k - 1] == r[..k][1..] && e[1..][..k - 1] == e[..k][1..];
      TrimDiverge(r[1..], e[1..], k - 1);
    } else {
      assert k > 0 ==> e[0] == e[..k][0] == r[..k][0];
      assert !IsSpace(e[0]);
      TrimRightKeeps(r, k);
      TrimRightKeeps(e, k);
    }
  }

  lemma TrimRightKeeps(s: string, k: nat)
    requires k < |s| && !IsSpace(s[k])
    ensures k < |TrimRight(s)| && TrimRight(s)[k] == s[k]
  {
  }

  lemma FormatIsScanFor(s: string, m: string)
    requires IsMarker(m)
    ensures TrimSpace(Restore(Skeleton(s, m), Literals(s), m)) == Normalised(s) <==> Safe("", s, m)
  {
    assert "" + Skeleton(s, m) == Skeleton(s, m) && "" + Scan(s) == Scan(s);
    if Safe("", s, m) {
      RestoreIsScan("", s, m);
    } else {
      var k := UnsafeDiverges("", s, m);
      TrimDiverge(Restore(Skeleton(s, m), Literals(s), m), Scan(s), k);
    }
  }

  /** formatSQL is the one-pass scanner on exactly the inputs in which nothing before a literal reads as a marker. */
  lemma FormatIsScanExactly(s: string)
    ensures Formatted(s) == Normalised(s) <==> MarkerSafe(s)
  {
    FormatIsScanFor(s, MARKER);
  }
}
