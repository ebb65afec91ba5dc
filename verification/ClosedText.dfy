/** Text in which every quote belongs to a literal: it can be put in front of other text without changing it. */
module ClosedText {
  import opened Strings
  import opened SqlText
  import opened SqlTextLaws

  predicate Closed(s: string)
    decreases |s|
  {
    s == "" ||
      var n := LiteralLen(s);
      if n > 0 then Closed(s[n..]) else !IsQuote(s[0]) && Closed(s[1..])
  }

  lemma {:induction false} ClosedPlain(s: string)
    requires forall c :: c in s ==> !IsQuote(c)
    ensures Closed(s)
  {
    if s != "" {
      assert s[0] in s;
      ClosedPlain(s[1..]);
    }
  }

  /** Closed text in front does not change how the rest is cut into literals. */
  lemma HeadOfConcat(a: string, b: string)
    requires a != "" && Closed(a)
    ensures var n := LiteralLen(a);
            && LiteralLen(a + b) == n
            && (n > 0 ==> (a + b)[..n] == a[..n] && (a + b)[n..] == a[n..] + b)
            && (n == 0 ==> (a + b)[0] == a[0] && (a + b)[1..] == a[1..] + b)
  {
    var n := LiteralLen(a);
    if n > 0 { LiteralHead(a, b); }
  }

  lemma LiteralHead(a: string, b: string)
    requires LiteralLen(a) > 0
    ensures var n := LiteralLen(a); LiteralLen(a + b) == n && (a + b)[..n] == a[..n] && (a + b)[n..] == a[n..] + b
  {
    var n := LiteralLen(a);
    LiteralAlone(a);
    LiteralThen(a[..n], a[n..] + b);
    Regroup(a[..n], a[n..], b);
    assert a[..n] + a[n..] == a;
  }

  lemma {:induction false} ClosedConcat(a: string, b: string)
    requires Closed(a) && Closed(b)
    ensures Closed(a + b)
    decreases |a|
  {
    if a == "" {
      assert a + b == b;
    } else {
      HeadOfConcat(a, b);
      var n := LiteralLen(a);
      if n > 0 { ClosedConcat(a[n..], b); } else { ClosedConcat(a[1..], b); }
    }
  }

  lemma {:induction false} ClosedDrop(a: string)
    requires Closed(a)
    ensures Closed(DropBlanks(a))
  {
    if a != "" && IsBlank(a[0]) { ClosedDrop(a[1..]); }
  }

  lemma {:induction false} DropConcat(a: string, b: string)
    requires b == "" || !IsBlank(b[0])
    ensures DropBlanks(a + b) == DropBlanks(a) + b
  {
    if a == "" {
      assert a + b == b;
    } else if IsBlank(a[0]) {
      assert (a + b)[1..] == a[1..] + b;
      DropConcat(a[1..], b);
    }
  }

  /** The scanner works on closed text and what follows it apart, unless white space runs across. */
  lemma {:induction false} ScanConcat(a: string, b: string)
    requires Closed(a) && (b == "" || !IsBlank(b[0]))
    ensures Scan(a + b) == Scan(a) + Scan(b)
    decreases |a|
  {
    if a == "" {
      assert a + b == b;
    } else {
      HeadOfConcat(a, b);
      var n := LiteralLen(a);
      if n > 0 {
        ScanConcat(a[n..], b);
        Regroup(a[..n], Scan(a[n..]), Scan(b));
      } else if IsBlank(a[0]) {
        DropConcat(a, b);
        ClosedDrop(a);
        ScanConcat(DropBlanks(a), b);
        Regroup(" ", Scan(DropBlanks(a)), Scan(b));
      } else {
        ScanConcat(a[1..], b);
        Regroup([a[0]], Scan(a[1..]), Scan(b));
      }
    }
  }
}
