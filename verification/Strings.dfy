/** The functions of Go's strings package that the modelled code calls. */
module Strings {

  datatype Option<+T> = None | Some(value: T)

  /** unicode.IsSpace, which strings.TrimSpace uses. */
  predicate IsSpace(c: char) {
    || '\t' <= c <= '\r' || c == ' ' || c == '\U{85}' || c == '\U{a0}' || c == '\U{1680}'
    || '\U{2000}' <= c <= '\U{200a}' || c == '\U{2028}' || c == '\U{2029}' || c == '\U{202f}'
    || c == '\U{205f}' || c == '\U{3000}'
  }

  function TrimLeft(s: string): (r: string)
    ensures |r| <= |s|
    ensures r != "" ==> !IsSpace(r[0])
  {
    if s != "" && IsSpace(s[0]) then TrimLeft(s[1..]) else s
  }

  function TrimRight(s: string): (r: string)
    ensures r <= s
    ensures r != "" ==> !IsSpace(r[|r| - 1])
    ensures forall i :: |r| <= i < |s| ==> IsSpace(s[i])
  {
    if s != "" && IsSpace(s[|s| - 1]) then TrimRight(s[..|s| - 1]) else s
  }

  /** strings.TrimSpace */
  function TrimSpace(s: string): string {
    TrimRight(TrimLeft(s))
  }

  /** Text with no surrounding white space. */
  predicate Trimmed(s: string) {
    s != "" ==> !IsSpace(s[0]) && !IsSpace(s[|s| - 1])
  }

  lemma TrimSpaceTrims(s: string)
    ensures Trimmed(TrimSpace(s))
    ensures Trimmed(s) ==> TrimSpace(s) == s
  {
  }

  lemma Regroup<T>(a: seq<T>, b: seq<T>, c: seq<T>)
    ensures a + (b + c) == a + b + c
  {
  }

  predicate Occurs(s: string, sub: string, i: int) {
    0 <= i && i + |sub| <= |s| && s[i..i + |sub|] == sub
  }

  /** An occurrence behind the first character is one in the rest. */
  lemma OccursInRest(s: string, sub: string)
    requires s != ""
    ensures forall i {:trigger Occurs(s, sub, i)} :: i > 0 ==> (Occurs(s, sub, i) <==> Occurs(s[1..], sub, i - 1))
  {
    forall i | i > 0 ensures Occurs(s, sub, i) <==> Occurs(s[1..], sub, i - 1) {
      if i + |sub| <= |s| { assert s[1..][i - 1..i - 1 + |sub|] == s[i..i + |sub|]; }
    }
  }

  /** strings.Index: the offset of the first occurrence, or -1. */
  function Index(s: string, sub: string): (r: int)
    ensures -1 <= r <= |s|
    ensures r >= 0 ==> Occurs(s, sub, r)
    ensures forall i {:trigger Occurs(s, sub, i)} :: (if r < 0 then true else i < r) ==> !Occurs(s, sub, i)
  {
    if Occurs(s, sub, 0) then 0
    else if s == "" then -1
    else
      var r := Index(s[1..], sub);
      OccursInRest(s, sub);
      if r < 0 then -1 else r + 1
  }

  /** The first occurrence is determined by the text up to its end. */
  lemma IndexIs(s: string, sub: string, k: nat)
    requires Occurs(s, sub, k)
    requires forall i :: 0 <= i < k ==> !Occurs(s, sub, i)
    ensures Index(s, sub) == k
  {
  }

  /** strings.Replace(s, old, with, 1) */
  function ReplaceFirst(s: string, sub: string, with: string): string {
    var i := Index(s, sub);
    if i < 0 then s else s[..i] + with + s[i + |sub|..]
  }

  /** strings.Join */
  function Join(parts: seq<string>, sep: string): string {
    if |parts| == 0 then ""
    else if |parts| == 1 then parts[0]
    else parts[0] + sep + Join(parts[1..], sep)
  }

  /** Number of occurrences of a character. */
  function Count(s: string, c: char): nat {
    if s == "" then 0 else (if s[0] == c then 1 else 0) + Count(s[1..], c)
  }

  lemma {:induction false} CountConcat(s: string, t: string, c: char)
    ensures Count(s + t, c) == Count(s, c) + Count(t, c)
  {
    if s == "" {
      assert s + t == t;
    } else {
      CountConcat(s[1..], t, c);
      assert (s + t)[1..] == s[1..] + t;
    }
  }

  lemma {:induction false} NoneCounted(s: string, c: char)
    requires c !in s
    ensures Count(s, c) == 0
  {
    if s != "" { NoneCounted(s[1..], c); }
  }

  /** strings.Split, for a separator that is not empty. */
  function Split(s: string, sep: string): (r: seq<string>)
    requires sep != ""
    ensures r != []
    decreases |s|
  {
    var i := Index(s, sep);
    if i < 0 then [s] else [s[..i]] + Split(s[i + |sep|..], sep)
  }

  /** unicode.ToUpper on every character whose capital is an ASCII letter: dotless i and long s are two of them. */
  function UpperChar(c: char): char {
    if 'a' <= c <= 'z' then ((c as int) - 32) as char
    else if c == '\U{131}' then 'I'
    else if c == '\U{17f}' then 'S'
    else c
  }

  /** unicode.ToLower on every character whose small letter is an ASCII one: dotted I and the Kelvin sign included. */
  function LowerChar(c: char): char {
    if 'A' <= c <= 'Z' then ((c as int) + 32) as char
    else if c == '\U{130}' then 'i'
    else if c == '\U{212a}' then 'k'
    else c
  }

  /** strings.ToUpper, for words that are compared with ASCII ones. */
  function Upper(s: string): (r: string)
    ensures |r| == |s|
  {
    if s == "" then "" else [UpperChar(s[0])] + Upper(s[1..])
  }

  /** strings.ToLower, for words that are compared with ASCII ones. */
  function Lower(s: string): (r: string)
    ensures |r| == |s|
  {
    if s == "" then "" else [LowerChar(s[0])] + Lower(s[1..])
  }

  // ----- facts about padding and splitting -----

  predicate Pad(p: string) { forall i :: 0 <= i < |p| ==> IsSpace(p[i]) }

  lemma {:induction false} TrimLeftPad(p: string, s: string)
    requires Pad(p) && (s != "" ==> !IsSpace(s[0]))
    ensures TrimLeft(p + s) == s
  {
    if p == "" { assert p + s == s; } else {
      assert (p + s)[1..] == p[1..] + s;
      TrimLeftPad(p[1..], s);
    }
  }

  lemma {:induction false} TrimRightPad(s: string, p: string)
    requires Pad(p) && (s != "" ==> !IsSpace(s[|s| - 1]))
    ensures TrimRight(s + p) == s
  {
    if p == "" { assert s + p == s; } else {
      var q := p[..|p| - 1];
      assert (s + p)[..|s + p| - 1] == s + q && (s + p)[|s + p| - 1] == p[|p| - 1];
      TrimRightPad(s, q);
    }
  }

  /** TrimSpace removes exactly the padding. */
  lemma TrimPadded(p: string, s: string, q: string)
    requires Pad(p) && Pad(q) && s != "" && Trimmed(s)
    ensures TrimSpace(p + s + q) == s
  {
    Regroup(p, s, q);
    assert (s + q)[0] == s[0];
    TrimLeftPad(p, s + q);
    TrimRightPad(s, q);
  }

  /** The first separator after a text that holds none and cannot start one. */
  lemma IndexAfter(a: string, sep: string, b: string)
    requires sep != "" && sep[0] !in sep[1..] && (forall i :: 0 <= i < |a| ==> !Occurs(a, sep, i))
    ensures Index(a + sep + b, sep) == |a|
    ensures (a + sep + b)[..|a|] == a && (a + sep + b)[|a| + |sep|..] == b
  {
    var s := a + sep + b;
    assert s[|a|..|a| + |sep|] == sep;
    forall i | 0 <= i < |a| ensures !Occurs(s, sep, i) {
      if i + |sep| <= |a| {
        assert s[i..i + |sep|] == a[i..i + |sep|];
        assert !Occurs(a, sep, i);
      } else {
        var k := |a| - i;
        assert sep[k] == sep[1..][k - 1];
        assert s[i..i + |sep|][k] == s[|a|] == sep[0];
      }
    }
    IndexIs(s, sep, |a|);
  }

  /** A character that a text does not hold starts no separator in it. */
  lemma AbsentStart(a: string, sep: string, c: char)
    requires c in sep && c !in a
    ensures forall i :: 0 <= i <= |a| ==> !Occurs(a, sep, i)
  {
    var j :| 0 <= j < |sep| && sep[j] == c;
    forall i | 0 <= i <= |a| ensures !Occurs(a, sep, i) {
      if i + |sep| <= |a| { assert a[i..i + |sep|][j] == a[i + j]; }
    }
  }

  lemma SplitFirst(a: string, sep: string, b: string, c: char)
    requires sep != "" && sep[0] !in sep[1..] && c in sep && c !in a
    ensures Split(a + sep + b, sep) == [a] + Split(b, sep)
  {
    AbsentStart(a, sep, c);
    IndexAfter(a, sep, b);
  }

  lemma SplitNone(a: string, sep: string, c: char)
    requires sep != "" && c in sep && c !in a
    ensures Split(a, sep) == [a]
  {
    AbsentStart(a, sep, c);
    var i := Index(a, sep);
  }
}
