/** What the functions of Strings mean, spelled out in characters. */
module StringLaws {
  import opened Strings

  /** The white space of unicode.IsSpace. */
  const SPACES: string := "\t\n\U{0b}\U{0c}\r \U{85}\U{a0}\U{1680}" +
                          "\U{2000}\U{2001}\U{2002}\U{2003}\U{2004}\U{2005}\U{2006}\U{2007}\U{2008}\U{2009}\U{200a}" +
                          "\U{2028}\U{2029}\U{202f}\U{205f}\U{3000}"

  const SMALL: string := "abcdefghijklmnopqrstuvwxyz"
  const CAPITALS: string := "ABCDEFGHIJKLMNOPQRSTUVWXYZ"

  lemma SpacesAreWhite(c: char)
    ensures IsSpace(c) <==> c in SPACES
  {
  }

  predicate Blank(p: string) { forall i :: 0 <= i < |p| ==> p[i] in SPACES }

  /** No white space at either end. */
  predicate Bare(t: string) { t != "" ==> t[0] !in SPACES && t[|t| - 1] !in SPACES }

  lemma BlankIsPad(p: string)
    ensures Blank(p) <==> Pad(p)
  {
    hide IsSpace;
    forall c ensures IsSpace(c) <==> c in SPACES { SpacesAreWhite(c); }
  }

  lemma BareIsTrimmed(t: string)
    ensures Bare(t) <==> Trimmed(t)
  {
    hide IsSpace;
    if t != "" {
      SpacesAreWhite(t[0]);
      SpacesAreWhite(t[|t| - 1]);
    }
  }

  /** Trimming gives the text between the white space at both ends, and that alone. */
  lemma TrimSpaceExactly(s: string, t: string)
    ensures t == TrimSpace(s) <==> Bare(t) && exists p, q :: s == p + t + q && Blank(p) && Blank(q)
  {
    BareIsTrimmed(t);
    hide Bare, Blank, IsSpace, TrimSpace;
    if t == TrimSpace(s) {
      var p, q := Ends(s);
      BlankIsPad(p);
      BlankIsPad(q);
      TrimSpaceTrims(s);
    }
    if p, q :| Trimmed(t) && s == p + t + q && Blank(p) && Blank(q) {
      BlankIsPad(p);
      BlankIsPad(q);
      if t != "" { TrimPadded(p, t, q); } else { BlankTrimsAway(p + t + q); }
    }
  }

  lemma BlankTrimsAway(p: string)
    requires Pad(p)
    ensures TrimSpace(p) == ""
  {
    TrimLeftPad(p, "");
    assert p + "" == p;
  }

  lemma Ends(s: string) returns (p: string, q: string)
    ensures s == p + TrimSpace(s) + q && Pad(p) && Pad(q)
  {
    hide IsSpace;
    p := Start(s);
    q := TrimLeft(s)[|TrimSpace(s)|..];
    Regroup(p, TrimSpace(s), q);
  }

  lemma {:induction false} Start(s: string) returns (p: string)
    ensures s == p + TrimLeft(s) && Pad(p)
  {
    hide IsSpace;
    p := "";
    if s != "" && IsSpace(s[0]) {
      p := Start(s[1..]);
      p := [s[0]] + p;
      Regroup([s[0]], p[1..], TrimLeft(s));
    }
  }

  /** The characters whose capital is an ASCII letter: the letter itself, its small form, dotless i and long s. */
  lemma CapitalOf(c: char, i: nat)
    requires i < 26
    ensures UpperChar(c) == CAPITALS[i] <==>
            c == CAPITALS[i] || c == SMALL[i] || (CAPITALS[i] == 'I' && c == '\U{131}') || (CAPITALS[i] == 'S' && c == '\U{17f}')
  {
    LetterAt(i);
  }

  /** The characters whose small form is an ASCII letter: the letter itself, its capital, dotted I and the Kelvin sign. */
  lemma SmallOf(c: char, i: nat)
    requires i < 26
    ensures LowerChar(c) == SMALL[i] <==>
            c == CAPITALS[i] || c == SMALL[i] || (SMALL[i] == 'i' && c == '\U{130}') || (SMALL[i] == 'k' && c == '\U{212a}')
  {
    LetterAt(i);
  }

  lemma LetterAt(i: nat)
    requires i < 26
    ensures CAPITALS[i] as int == 'A' as int + i && SMALL[i] as int == 'a' as int + i
  {
  }

  /** The parts between the separators: none holds one, and they make up the text again. */
  lemma {:induction false} SplitExactly(s: string, sep: string)
    requires sep != ""
    ensures Join(Split(s, sep), sep) == s
    ensures forall i :: 0 <= i < |Split(s, sep)| ==> Index(Split(s, sep)[i], sep) < 0
    decreases |s|
  {
    hide Index, Join;
    var i := Index(s, sep);
    if i >= 0 {
      BeforeFirst(s, sep);
      SplitExactly(s[i + |sep|..], sep);
      assert Occurs(s, sep, i) && s == s[..i] + sep + s[i + |sep|..];
      JoinCons(s[..i], Split(s[i + |sep|..], sep), sep);
    } else {
      JoinOne(s, sep);
    }
  }

  lemma JoinCons(part: string, parts: seq<string>, sep: string)
    requires parts != []
    ensures Join([part] + parts, sep) == part + sep + Join(parts, sep)
  {
    assert ([part] + parts)[1..] == parts;
  }

  lemma JoinOne(part: string, sep: string)
    ensures Join([part], sep) == part
  {
  }

  lemma BeforeFirst(s: string, sep: string)
    requires sep != "" && Index(s, sep) >= 0
    ensures Index(s[..Index(s, sep)], sep) < 0
  {
    hide Index;
    var i := Index(s, sep);
    forall k | 0 <= k && k + |sep| <= i ensures !Occurs(s[..i], sep, k) {
      assert !Occurs(s, sep, k);
      assert s[..i][k..k + |sep|] == s[k..k + |sep|];
    }
  }

  /** The first occurrence of a character. */
  lemma CharFound(s: string, c: char)
    ensures var i := Index(s, [c]); if i < 0 then c !in s else i < |s| && s[i] == c && c !in s[..i]
  {
    hide Index;
    var i := Index(s, [c]);
    forall k | 0 <= k < |s| && (i < 0 || k < i) ensures s[k] != c {
      assert !Occurs(s, [c], k);
      assert s[k..k + 1] == [s[k]];
    }
    if i >= 0 { assert Occurs(s, [c], i) && s[i..i + 1] == [s[i]]; }
  }

  lemma CharIs(s: string, c: char, i: nat)
    requires i < |s| && s[i] == c && c !in s[..i]
    ensures Index(s, [c]) == i
  {
    forall k | 0 <= k < i ensures !Occurs(s, [c], k) {
      assert s[k] in s[..i];
      assert s[k..k + 1] == [s[k]];
    }
    assert s[i..i + 1] == [c];
    hide Index;
    IndexIs(s, [c], i);
  }
}
