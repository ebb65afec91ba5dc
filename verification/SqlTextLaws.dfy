/** What formatSQL keeps: the literals, the masked text up to white space, and its own results. */
module SqlTextLaws {
  import opened Strings
  import opened SqlText

  // ----- quotes, blanks and literals under the scanner -----

  /** The scanner drops blanks only. */
  lemma {:induction false} ScanKeepsChar(s: string, c: char)
    requires !IsBlank(c)
    ensures c in Scan(s) <==> c in s
    decreases |s|
  {
    if s != "" {
      var n := LiteralLen(s);
      if n > 0 {
        ScanKeepsChar(s[n..], c);
        assert s == s[..n] + s[n..];
      } else if IsBlank(s[0]) {
        ScanKeepsChar(DropBlanks(s), c);
        DropBlanksKeepsChar(s, c);
      } else {
        ScanKeepsChar(s[1..], c);
        assert s == [s[0]] + s[1..];
      }
    }
  }

  lemma {:induction false} DropBlanksKeepsChar(s: string, c: char)
    requires !IsBlank(c)
    ensures c in DropBlanks(s) <==> c in s
  {
    if s != "" && IsBlank(s[0]) {
      DropBlanksKeepsChar(s[1..], c);
      assert s == [s[0]] + s[1..];
    }
  }

  lemma LiteralLenIs(s: string, n: nat)
    requires 2 <= n <= |s| && IsQuote(s[0]) && s[n - 1] == s[0] && s[0] !in s[1..n - 1]
    ensures LiteralLen(s) == n
  {
    assert s[1..][n - 2] == s[0];
    var k := LiteralLen(s);
    assert forall x :: 1 <= x < n - 1 ==> s[x] == s[1..n - 1][x - 1];
    assert forall x :: 1 <= x < k - 1 ==> s[x] == s[1..k - 1][x - 1];
  }

  /** A literal is recognised by its own text, whatever follows. */
  lemma LiteralThen(w: string, rest: string)
    requires LiteralLen(w) == |w| > 0
    ensures LiteralLen(w + rest) == |w|
    ensures (w + rest)[..|w|] == w && (w + rest)[|w|..] == rest
  {
    assert (w + rest)[1..|w| - 1] == w[1..|w| - 1];
    LiteralLenIs(w + rest, |w|);
  }

  lemma LiteralAlone(s: string)
    requires LiteralLen(s) > 0
    ensures LiteralLen(s[..LiteralLen(s)]) == LiteralLen(s)
  {
    var n := LiteralLen(s);
    assert s[..n][1..n - 1] == s[1..n - 1];
    LiteralLenIs(s[..n], n);
  }

  /** An ordinary first character stays ordinary when the rest keeps its quotes. */
  lemma OrdinaryThen(c: char, rest: string, rest': string)
    requires LiteralLen([c] + rest) == 0
    requires IsQuote(c) ==> (c in rest <==> c in rest')
    ensures LiteralLen([c] + rest') == 0
  {
    assert ([c] + rest)[1..] == rest && ([c] + rest')[1..] == rest';
  }

  // ----- laws of the scanner -----

  /** What the scanner writes: a literal, a space or one character, and then the scan of the rest. */
  lemma ScanHead(s: string)
    requires s != ""
    ensures var n := LiteralLen(s);
            var t := Scan(s);
            && (n > 0 ==> LiteralLen(t) == n && t[..n] == s[..n] && t[n..] == Scan(s[n..]))
            && (n == 0 ==> t != "" && LiteralLen(t) == 0)
            && (n == 0 && IsBlank(s[0]) ==> t[0] == ' ' && DropBlanks(t) == t[1..] == Scan(DropBlanks(s)))
            && (n == 0 && !IsBlank(s[0]) ==> t[0] == s[0] && t[1..] == Scan(s[1..]))
    decreases |s|
  {
    var n := LiteralLen(s);
    var t := Scan(s);
    if n > 0 {
      LiteralAlone(s);
      LiteralThen(s[..n], Scan(s[n..]));
    } else if IsBlank(s[0]) {
      var u := DropBlanks(s);
      assert t[1..] == Scan(u);
      if u != "" { ScanHead(u); }
    } else {
      assert t[1..] == Scan(s[1..]);
      if IsQuote(s[0]) { ScanKeepsChar(s[1..], s[0]); }
      assert s == [s[0]] + s[1..];
      OrdinaryThen(s[0], s[1..], Scan(s[1..]));
    }
  }

  lemma {:induction false} ScanIdempotent(s: string)
    ensures Scan(Scan(s)) == Scan(s)
    decreases |s|
  {
    if s != "" {
      ScanHead(s);
      var n := LiteralLen(s);
      if n > 0 { ScanIdempotent(s[n..]); }
      else if IsBlank(s[0]) { ScanIdempotent(DropBlanks(s)); }
      else { ScanIdempotent(s[1..]); }
    }
  }

  /** The literals survive byte for byte and in order. */
  lemma {:induction false} ScanKeepsLiterals(s: string)
    ensures Literals(Scan(s)) == Literals(s)
    decreases |s|
  {
    if s != "" {
      ScanHead(s);
      var n := LiteralLen(s);
      if n > 0 { ScanKeepsLiterals(s[n..]); }
      else if IsBlank(s[0]) {
        ScanKeepsLiterals(DropBlanks(s));
        LiteralsDropBlanks(s);
      } else { ScanKeepsLiterals(s[1..]); }
    }
  }

  /** Outside the literals nothing happens but the collapse of white space. */
  lemma {:induction false} ScanCollapsesMask(s: string, m: string)
    requires IsMarker(m)
    ensures Mask(Scan(s), m) == Skeleton(s, m)
    decreases |s|
  {
    if s != "" {
      ScanHead(s);
      SkeletonStep(s, m);
      var n := LiteralLen(s);
      if n > 0 { ScanCollapsesMask(s[n..], m); }
      else if IsBlank(s[0]) { ScanCollapsesMask(DropBlanks(s), m); }
      else { ScanCollapsesMask(s[1..], m); }
    }
  }

  lemma {:induction false} ScanKeepsSafe(done: string, s: string, m: string)
    ensures Safe(done, Scan(s), m) == Safe(done, s, m)
    decreases |s|
  {
    if s != "" {
      ScanHead(s);
      var n := LiteralLen(s);
      if n > 0 { ScanKeepsSafe(done + s[..n], s[n..], m); }
      else if IsBlank(s[0]) { ScanKeepsSafe(done + " ", DropBlanks(s), m); }
      else { ScanKeepsSafe(done + [s[0]], s[1..], m); }
    }
  }

  // ----- trimming -----

  /** The scanner has nothing left to do. */
  predicate Fixed(s: string) { Scan(s) == s }

  lemma FixedTail(s: string)
    requires Fixed(s) && s != "" && LiteralLen(s) == 0
    ensures Fixed(s[1..])
    ensures IsBlank(s[0]) ==> s[0] == ' ' && DropBlanks(s) == s[1..]
  {
    ScanHead(s);
    if IsBlank(s[0]) { ScanIdempotent(DropBlanks(s)); }
  }

  lemma {:induction false} ShiftSafe(done: string, s: string, c: char, m: string)
    requires IsMarker(m) && m[0] != c
    ensures Safe([c] + done, s, m) == Safe(done, s, m)
    decreases |s|
  {
    if s != "" {
      var n := LiteralLen(s);
      ShiftMarker(done, c, m);
      if n > 0 {
        Regroup([c], done, s[..n]);
        ShiftSafe(done + s[..n], s[n..], c, m);
      } else if IsBlank(s[0]) {
        Regroup([c], done, " ");
        ShiftSafe(done + " ", DropBlanks(s), c, m);
      } else {
        Regroup([c], done, [s[0]]);
        ShiftSafe(done + [s[0]], s[1..], c, m);
      }
    }
  }

  lemma ShiftMarker(done: string, c: char, m: string)
    requires m != "" && m[0] != c
    ensures NoEarlierMarker([c] + done, m) == NoEarlierMarker(done, m)
  {
    var s := [c] + done + m;
    assert s[1..] == done + m;
    assert |m| <= |s| && s[0..|m|][0] == s[0];
    assert Occurs(done + m, m, |done|);
  }

  /** The text from the first non-space on. */
  lemma {:induction false} TrimLeftKeeps(s: string, m: string)
    requires Fixed(s) && IsMarker(m)
    ensures var t := TrimLeft(s);
            && Fixed(t)
            && Literals(t) == Literals(s)
            && Mask(t, m) == TrimLeft(Mask(s, m))
            && Safe("", t, m) == Safe("", s, m)
  {
    if s != "" && IsSpace(s[0]) {
      FixedTail(s);
      TrimLeftKeeps(s[1..], m);
      ShiftSafe("", s[1..], s[0], m);
      assert Mask(s, m)[1..] == Mask(s[1..], m);
      assert [s[0]] + "" == "" + [s[0]] == [s[0]];
    } else if s != "" {
      MaskHead(s, m);
    }
  }

  lemma MaskHead(s: string, m: string)
    requires s != "" && IsMarker(m) && !IsSpace(s[0])
    ensures Mask(s, m) != "" && !IsSpace(Mask(s, m)[0])
  {
    if LiteralLen(s) > 0 { assert Mask(s, m)[0] == m[0]; }
  }

  lemma AppendLiteralLen(s: string, c: char)
    requires !IsQuote(c) && s != ""
    ensures LiteralLen(s + [c]) == LiteralLen(s)
  {
    var n := LiteralLen(s);
    assert (s + [c])[1..] == s[1..] + [c];
    if n > 0 {
      assert (s + [c])[1..n - 1] == s[1..n - 1];
      LiteralLenIs(s + [c], n);
    }
  }

  lemma AppendSlices(s: string, c: char, n: nat)
    requires n <= |s|
    ensures (s + [c])[..n] == s[..n] && (s + [c])[n..] == s[n..] + [c]
  {
  }

  lemma AppendStep(s: string, c: char)
    requires !IsQuote(c) && Fixed(s + [c]) && s != ""
    ensures var n := LiteralLen(s);
            var t := s + [c];
            && LiteralLen(t) == n
            && (n > 0 ==> t[..n] == s[..n] && t[n..] == s[n..] + [c] && Fixed(s[n..] + [c]))
            && (n == 0 ==> t[0] == s[0] && t[1..] == s[1..] + [c] && Fixed(s[1..] + [c]))
            && (n == 0 && IsBlank(s[0]) ==> s[0] == ' ' && DropBlanks(t) == t[1..] && DropBlanks(s) == s[1..])
  {
    var n := LiteralLen(s);
    var t := s + [c];
    AppendLiteralLen(s, c);
    AppendSlices(s, c, n);
    if n > 0 {
      FixedBehind(t);
    } else {
      FixedTail(t);
      AppendSlices(s, c, 1);
      DropNone(s[1..], c);
    }
  }

  lemma FixedBehind(s: string)
    requires Fixed(s) && LiteralLen(s) > 0
    ensures Fixed(s[LiteralLen(s)..])
  {
    ScanHead(s);
  }

  lemma DropNone(s: string, c: char)
    ensures DropBlanks(s + [c]) == s + [c] ==> DropBlanks(s) == s
  {
    if s != "" { assert (s + [c])[0] == s[0]; }
  }

  lemma {:induction false} AppendFixed(s: string, c: char)
    requires !IsQuote(c) && Fixed(s + [c])
    ensures Fixed(s)
    decreases |s|
  {
    if s != "" {
      AppendStep(s, c);
      var n := LiteralLen(s);
      if n > 0 {
        AppendFixed(s[n..], c);
        ScanLiteral(s);
      } else {
        AppendFixed(s[1..], c);
        ScanOther(s);
      }
    }
  }

  lemma ScanLiteral(s: string)
    requires LiteralLen(s) > 0 && Fixed(s[LiteralLen(s)..])
    ensures Fixed(s)
  {
  }

  lemma ScanOther(s: string)
    requires s != "" && LiteralLen(s) == 0 && Fixed(s[1..])
    requires IsBlank(s[0]) ==> s[0] == ' ' && DropBlanks(s) == s[1..]
    ensures Fixed(s)
  {
  }

  lemma {:induction false} AppendLiterals(s: string, c: char)
    requires !IsQuote(c) && Fixed(s + [c])
    ensures Literals(s + [c]) == Literals(s)
    decreases |s|
  {
    if s != "" {
      AppendStep(s, c);
      var n := LiteralLen(s);
      if n > 0 { AppendLiterals(s[n..], c); } else { AppendLiterals(s[1..], c); }
    } else {
      assert s + [c] == [c] && [c][1..] == "";
    }
  }

  lemma {:induction false} AppendMask(s: string, c: char, m: string)
    requires !IsQuote(c) && Fixed(s + [c])
    ensures Mask(s + [c], m) == Mask(s, m) + [c]
    decreases |s|
  {
    if s != "" {
      AppendStep(s, c);
      var n := LiteralLen(s);
      if n > 0 {
        AppendMask(s[n..], c, m);
        Regroup(m, Mask(s[n..], m), [c]);
      } else {
        AppendMask(s[1..], c, m);
        Regroup([s[0]], Mask(s[1..], m), [c]);
      }
    } else {
      assert s + [c] == [c] && [c][1..] == "" && [c] + "" == "" + [c];
    }
  }

  lemma {:induction false} AppendSafe(done: string, s: string, c: char, m: string)
    requires !IsQuote(c) && Fixed(s + [c])
    ensures Safe(done, s + [c], m) == Safe(done, s, m)
    decreases |s|
  {
    if s != "" {
      AppendStep(s, c);
      var n := LiteralLen(s);
      if n > 0 { AppendSafe(done + s[..n], s[n..], c, m); }
      else if IsBlank(s[0]) { AppendSafe(done + " ", s[1..], c, m); }
      else { AppendSafe(done + [s[0]], s[1..], c, m); }
    } else {
      assert s + [c] == [c] && [c][1..] == "" && |DropBlanks([c])| <= 1;
    }
  }

  lemma {:induction false} TrimRightKeepsAll(s: string, m: string)
    requires Fixed(s) && IsMarker(m)
    ensures var t := TrimRight(s);
            && Fixed(t)
            && Literals(t) == Literals(s)
            && Mask(t, m) == TrimRight(Mask(s, m))
            && Safe("", t, m) == Safe("", s, m)
  {
    if s != "" && IsSpace(s[|s| - 1]) {
      var c := s[|s| - 1];
      var u := s[..|s| - 1];
      assert s == u + [c];
      AppendFixed(u, c);
      AppendLiterals(u, c);
      AppendMask(u, c, m);
      AppendSafe("", u, c, m);
      TrimRightKeepsAll(u, m);
      assert Mask(s, m)[..|Mask(s, m)| - 1] == Mask(u, m);
    } else {
      MaskLast(s, m);
    }
  }

  lemma {:induction false} MaskLast(s: string, m: string)
    requires IsMarker(m) && (s != "" ==> !IsSpace(s[|s| - 1]))
    ensures var t := Mask(s, m); t != "" ==> !IsSpace(t[|t| - 1])
    decreases |s|
  {
    if s != "" {
      var n := LiteralLen(s);
      if n > 0 {
        MaskLast(s[n..], m);
        assert m[|m| - 1] in m;
      } else {
        MaskLast(s[1..], m);
      }
    }
  }

  /** The text formatSQL is meant to return is left alone by everything formatSQL does. */
  lemma NormalisedKeeps(s: string, m: string)
    requires IsMarker(m)
    ensures var t := Normalised(s);
            && Fixed(t) && Trimmed(t)
            && Literals(t) == Literals(s)
            && Mask(t, m) == TrimSpace(Collapse(Mask(s, m)))
            && Safe("", t, m) == Safe("", s, m)
  {
    ScanIdempotent(s);
    ScanKeepsLiterals(s);
    ScanCollapsesMask(s, m);
    ScanKeepsSafe("", s, m);
    TrimLeftKeeps(Scan(s), m);
    TrimRightKeepsAll(TrimLeft(Scan(s)), m);
    TrimSpaceTrims(Scan(s));
  }

  /** Literals byte for byte and in order; outside them only white space changes. */
  lemma FormattedKeepsLiterals(s: string)
    requires MarkerSafe(s)
    ensures Literals(Formatted(s)) == Literals(s)
    ensures Mask(Formatted(s), MARKER) == TrimSpace(Collapse(Mask(s, MARKER)))
  {
    hide Mask, Literals, Collapse, Scan, TrimSpace, TrimLeft, TrimRight, MarkerSafe, Index;
    FormatIsScanExactly(s);
    NormalisedKeeps(s, MARKER);
  }

  /** Formatting twice is formatting once. */
  lemma FormattedIdempotent(s: string)
    requires MarkerSafe(s)
    ensures MarkerSafe(Formatted(s))
    ensures Formatted(Formatted(s)) == Formatted(s)
  {
    FormatIsScanExactly(s);
    NormalisedKeeps(s, MARKER);
    FormatIsScanExactly(Formatted(s));
    TrimSpaceTrims(Formatted(s));
  }

  // ----- placeholders -----

  lemma {:induction false} CollapseKeepsCount(s: string, c: char)
    requires !IsBlank(c)
    ensures Count(Collapse(s), c) == Count(s, c)
    decreases |s|
  {
    if s != "" {
      if IsBlank(s[0]) {
        CollapseKeepsCount(DropBlanks(s), c);
        DropBlanksKeepsCount(s, c);
        assert Collapse(s)[1..] == Collapse(DropBlanks(s));
      } else {
        CollapseKeepsCount(s[1..], c);
        assert Collapse(s)[1..] == Collapse(s[1..]);
      }
    }
  }

  lemma {:induction false} DropBlanksKeepsCount(s: string, c: char)
    requires !IsBlank(c)
    ensures Count(DropBlanks(s), c) == Count(s, c)
  {
    if s != "" && IsBlank(s[0]) { DropBlanksKeepsCount(s[1..], c); }
  }

  lemma {:induction false} TrimLeftKeepsCount(s: string, c: char)
    requires !IsSpace(c)
    ensures Count(TrimLeft(s), c) == Count(s, c)
  {
    if s != "" && IsSpace(s[0]) { TrimLeftKeepsCount(s[1..], c); }
  }

  lemma {:induction false} TrimRightKeepsCount(s: string, c: char)
    requires !IsSpace(c)
    ensures Count(TrimRight(s), c) == Count(s, c)
  {
    if s != "" && IsSpace(s[|s| - 1]) {
      TrimRightKeepsCount(s[..|s| - 1], c);
      CountConcat(s[..|s| - 1], s[|s| - 1..], c);
      assert s == s[..|s| - 1] + s[|s| - 1..];
    }
  }

  /** No placeholder outside the literals is lost or made. */
  lemma FormattedKeepsPlaceholders(s: string)
    requires MarkerSafe(s)
    ensures Count(Mask(Formatted(s), MARKER), '?') == Count(Mask(s, MARKER), '?')
  {
    FormattedKeepsLiterals(s);
    var t := Collapse(Mask(s, MARKER));
    CollapseKeepsCount(Mask(s, MARKER), '?');
    TrimLeftKeepsCount(t, '?');
    TrimRightKeepsCount(TrimLeft(t), '?');
  }

  function CountAll(ss: seq<string>, c: char): nat {
    if ss == [] then 0 else Count(ss[0], c) + CountAll(ss[1..], c)
  }

  lemma {:induction false} CountSplits(s: string, c: char, m: string)
    requires c !in m
    ensures Count(s, c) == Count(Mask(s, m), c) + CountAll(Literals(s), c)
    decreases |s|
  {
    if s != "" {
      var n := LiteralLen(s);
      if n > 0 {
        CountSplits(s[n..], c, m);
        CountLiteral(s, c, m);
        hide *;
      } else {
        CountSplits(s[1..], c, m);
        assert Mask(s, m)[1..] == Mask(s[1..], m);
      }
    }
  }

  lemma CountLiteral(s: string, c: char, m: string)
    requires c !in m && LiteralLen(s) > 0
    ensures var n := LiteralLen(s);
            && Count(s, c) == Count(s[..n], c) + Count(s[n..], c)
            && Count(Mask(s, m), c) == Count(Mask(s[n..], m), c)
            && CountAll(Literals(s), c) == Count(s[..n], c) + CountAll(Literals(s[n..]), c)
  {
    var n := LiteralLen(s);
    CountCut(s, n, c);
    CountBehind(m, Mask(s[n..], m), c);
    LiteralsHead(s);
    assert Mask(s, m) == m + Mask(s[n..], m);
    hide Mask, Literals, LiteralLen, Count;
    assert CountAll([s[..n]] + Literals(s[n..]), c) == Count(s[..n], c) + CountAll(Literals(s[n..]), c);
  }

  lemma LiteralsHead(s: string)
    requires LiteralLen(s) > 0
    ensures Literals(s) == [s[..LiteralLen(s)]] + Literals(s[LiteralLen(s)..])
  {
  }

  lemma CountCut(s: string, n: nat, c: char)
    requires n <= |s|
    ensures Count(s, c) == Count(s[..n], c) + Count(s[n..], c)
  {
    hide Count;
    CountConcat(s[..n], s[n..], c);
    assert s[..n] + s[n..] == s;
  }

  lemma CountBehind(m: string, t: string, c: char)
    requires c !in m
    ensures Count(m + t, c) == Count(t, c)
  {
    hide Count;
    CountConcat(m, t, c);
    NoneCounted(m, c);
  }

  lemma {:induction false} CountZero(s: string, c: char)
    ensures Count(s, c) == 0 <==> c !in s
  {
    if s != "" {
      CountZero(s[1..], c);
      assert s == [s[0]] + s[1..];
    }
  }

  lemma {:induction false} CountAllZero(ss: seq<string>, c: char)
    ensures CountAll(ss, c) == 0 <==> forall s :: s in ss ==> c !in s
  {
    if ss != [] {
      CountZero(ss[0], c);
      CountAllZero(ss[1..], c);
      assert ss == [ss[0]] + ss[1..];
    }
  }

  /** extractParams counts every `?`: the placeholders and no more exactly when no literal holds one. */
  lemma PlaceholdersCountedExactlyWhen(s: string)
    ensures Count(s, '?') == Count(Mask(s, MARKER), '?') <==> forall l :: l in Literals(s) ==> '?' !in l
  {
    CountSplits(s, '?', MARKER);
    CountAllZero(Literals(s), '?');
  }

  // ----- who is safe -----

  lemma {:induction false} NoHashSafe(done: string, s: string, m: string)
    requires '#' !in done && '#' !in s && IsMarker(m)
    ensures Safe(done, s, m)
    decreases |s|
  {
    if s != "" {
      var n := LiteralLen(s);
      assert NoEarlierMarker(done, m) by {
        assert Occurs(done + m, m, |done|);
        var k := Index(done + m, m);
        assert (done + m)[k] == (done + m)[k..k + |m|][0] == '#';
      }
      if n > 0 { NoHashSafe(done + s[..n], s[n..], m); }
      else if IsBlank(s[0]) {
        DropBlanksKeepsChar(s, '#');
        NoHashSafe(done + " ", DropBlanks(s), m);
      } else { NoHashSafe(done + [s[0]], s[1..], m); }
    }
  }

  /** Every input without a number sign. */
  lemma NoHashIsMarkerSafe(s: string)
    requires '#' !in s
    ensures MarkerSafe(s) && Formatted(s) == Normalised(s)
  {
    NoHashSafe("", s, MARKER);
    FormatIsScanExactly(s);
  }

  /** Two literals, the first holding the marker's own text: the second is written into the first. */
  lemma MarkerInLiteralBreaks(m: string, q: string)
    requires IsMarker(m) && LiteralLen(q) == |q| > 0
    ensures !Safe("", "'" + m + "'" + q, m)
  {
    var w := "'" + m + "'";
    assert '\'' !in m by { assert IsQuote('\''); }
    assert w[1..|w| - 1] == m;
    LiteralLenIs(w, |w|);
    LiteralThen(w, q);
    assert !NoEarlierMarker(w, m) by {
      PrefixOf(w, m, |w| - 1);
      assert (w + m)[1..1 + |m|] == m;
      assert Occurs(w + m, m, 1);
    }
    assert "" + w == w;
  }

  lemma MarkerIsWord()
    ensures IsMarker(MARKER)
  {
  }

  lemma QuotedMarker()
    ensures "'" + MARKER + "'" == "'##STRING_LITERAL##'"
  {
  }

  /** With the marker spelled out: a text that quotes it in front of another literal is not safe. */
  lemma SpelledMarkerBreaks(q: string)
    requires LiteralLen(q) == |q| > 0
    ensures !MarkerSafe("'##STRING_LITERAL##'" + q)
  {
    hide Safe, IsMarker;
    MarkerIsWord();
    QuotedMarker();
    MarkerInLiteralBreaks(MARKER, q);
  }
}
