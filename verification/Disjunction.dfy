/** What Or means: its AND group is a disjunction for one live filter, and for no two independent ones. */
module Disjunction {
  import opened Strings
  import opened Schemas
  import opened Filters
  import opened Where
  import opened WhereProofs

  /** A test on a column, as the text of a condition asks it. */
  type Test = (string, Cmp, Value)

  function DocTests(d: Doc): set<Test> {
    match d
    case Bare(col, cmp, arg) => {(col, cmp, arg)}
    case Paren(_, ds) => AllDocTests(ds)
  }

  function AllDocTests(ds: seq<Doc>): set<Test> {
    if ds == [] then {} else DocTests(ds[0]) + AllDocTests(ds[1..])
  }

  /** The tests a filter makes. */
  function Tests(sch: Schema, f: Filter): set<Test>
    decreases f, 0
  {
    match f
    case NilFilter => {}
    case Group(_, fs) => AllTests(sch, fs)
    case Entries(_, es) => AllDocTests(EntryDocs(sch, es))
  }

  function AllTests(sch: Schema, fs: seq<Filter>): set<Test>
    decreases fs, 0
  {
    if fs == [] then {} else Tests(sch, fs[0]) + AllTests(sch, fs[1..])
  }

  /** No two of the filters make the same test. */
  predicate Independent(sch: Schema, fs: seq<Filter>) {
    forall i, j :: 0 <= i < j < |fs| ==> Tests(sch, fs[i]) !! Tests(sch, fs[j])
  }

  // ----- rows with one answer -----

  predicate Gives(row: Row, ts: set<Test>, t: Truth) { forall x :: x in ts ==> row(x.0, x.1, x.2) == t }

  /** A row that says yes to some tests and no to all others. */
  function TrueOn(ts: set<Test>): Row { (col, cmp, arg) => if (col, cmp, arg) in ts then True else False }

  lemma ConstantEntry(sch: Schema, e: Entry, row: Row, t: Truth)
    requires Gives(row, DocTests(EntryDoc(sch, e)), t)
    ensures EntryMeaning(sch, e, row) == t
  {
    var ds := EntryDoc(sch, e).docs;
    TestsOfPart(ds, 0);
    if |ds| > 1 { TestsOfPart(ds, 1); }
    assert (ds[0].col, ds[0].cmp, ds[0].arg) in DocTests(ds[0]);
    assert |ds| > 1 ==> (ds[1].col, ds[1].cmp, ds[1].arg) in DocTests(ds[1]);
  }

  lemma {:induction false} TestsOfPart(ds: seq<Doc>, i: nat)
    requires i < |ds|
    ensures DocTests(ds[i]) <= AllDocTests(ds)
  {
    if i > 0 { TestsOfPart(ds[1..], i - 1); }
  }

  lemma {:induction false} ConstantEntries(sch: Schema, es: seq<Entry>, row: Row, t: Truth)
    requires Gives(row, AllDocTests(EntryDocs(sch, es)), t)
    ensures forall v :: v in EntryMeanings(sch, es, row) ==> v == t
  {
    if es != [] {
      ConstantEntry(sch, es[0], row, t);
      ConstantEntries(sch, es[1..], row, t);
    }
  }

  lemma ConstantCombined(op: Operator, vs: seq<Truth>, t: Truth)
    requires vs != [] && forall v :: v in vs ==> v == t
    ensures Combined(op, vs) == t
  {
    assert vs[0] in vs;
  }

  /** A filter whose tests all get one answer gives that answer, if it says anything. */
  lemma {:induction false} ConstantItem(sch: Schema, f: Filter, row: Row, t: Truth)
    requires Gives(row, Tests(sch, f), t)
    ensures Meaning(sch, f, row) in {None, Some(t)}
    decreases f, 0
  {
    match f {
      case NilFilter =>
      case Group(op, fs) =>
        ConstantAnswers(sch, fs, row, t);
        var vs := Answers(sch, fs, row);
        if vs != [] { ConstantCombined(op, vs, t); }
      case Entries(op, es) =>
        ConstantEntries(sch, es, row, t);
        if es != [] { ConstantCombined(op, EntryMeanings(sch, es, row), t); }
    }
  }

  lemma {:induction false} ConstantAnswers(sch: Schema, fs: seq<Filter>, row: Row, t: Truth)
    requires Gives(row, AllTests(sch, fs), t)
    ensures forall v :: v in Answers(sch, fs, row) ==> v == t
    decreases fs, 0
  {
    if fs != [] {
      ConstantItem(sch, fs[0], row, t);
      ConstantAnswers(sch, fs[1..], row, t);
    }
  }

  // ----- what Or means -----

  lemma {:induction false} EvalsLength(ds: seq<Doc>, row: Row)
    ensures |Evals(ds, row)| == |ds|
  {
    if ds != [] { EvalsLength(ds[1..], row); }
  }

  /** At most one filter that says anything: the group is a disjunction, and a conjunction as well. */
  lemma OneLiveIsDisjunction(sch: Schema, fs: seq<Filter>, row: Row)
    requires |LiveDocs(sch, fs)| <= 1
    ensures Meaning(sch, Group(AndOp, fs), row) == Meaning(sch, Group(OrOp, fs), row)
  {
    LiveMeaning(sch, fs, row);
    EvalsLength(LiveDocs(sch, fs), row);
    var vs := Answers(sch, fs, row);
    if vs != [] {
      assert vs == [vs[0]];
      ConstantCombined(AndOp, vs, vs[0]);
      ConstantCombined(OrOp, vs, vs[0]);
    }
  }

  lemma {:induction false} LiveAnswers(sch: Schema, fs: seq<Filter>, i: nat, row: Row)
    requires i < |fs| && Meaning(sch, fs[i], row).Some?
    ensures Meaning(sch, fs[i], row).value in Answers(sch, fs, row)
  {
    if i > 0 { LiveAnswers(sch, fs[1..], i - 1, row); }
  }

  lemma {:induction false} SomeLive(sch: Schema, fs: seq<Filter>) returns (i: nat)
    requires LiveDocs(sch, fs) != []
    ensures i < |fs| && ItemDoc(sch, fs[i]).Some?
  {
    if ItemDoc(sch, fs[0]).Some? {
      i := 0;
    } else {
      i := SomeLive(sch, fs[1..]);
      i := i + 1;
    }
  }

  lemma {:induction false} TwoLive(sch: Schema, fs: seq<Filter>) returns (i: nat, j: nat)
    requires |LiveDocs(sch, fs)| > 1
    ensures i < j < |fs| && ItemDoc(sch, fs[i]).Some? && ItemDoc(sch, fs[j]).Some?
  {
    if ItemDoc(sch, fs[0]).Some? {
      i := 0;
      j := SomeLive(sch, fs[1..]);
    } else {
      i, j := TwoLive(sch, fs[1..]);
      i := i + 1;
    }
    j := j + 1;
  }

  /** Two live filters that share no test: some row separates the group from a disjunction. */
  lemma TwoLiveAreSeparated(sch: Schema, fs: seq<Filter>, i: nat, j: nat) returns (row: Row)
    requires i < |fs| && j < |fs| && ItemDoc(sch, fs[i]).Some? && ItemDoc(sch, fs[j]).Some?
    requires Tests(sch, fs[i]) !! Tests(sch, fs[j])
    ensures Meaning(sch, Group(AndOp, fs), row) == Some(False) && Meaning(sch, Group(OrOp, fs), row) == Some(True)
  {
    row := TrueOn(Tests(sch, fs[i]));
    ItemMeaning(sch, fs[i], row);
    ItemMeaning(sch, fs[j], row);
    ConstantItem(sch, fs[i], row, True);
    ConstantItem(sch, fs[j], row, False);
    LiveAnswers(sch, fs, i, row);
    LiveAnswers(sch, fs, j, row);
  }

  /**
   For filters that share no test, the AND group that Or builds means their disjunction on every row exactly when
   at most one of them writes anything.
   */
  lemma OrIsDisjunctionExactlyWhen(sch: Schema, fs: seq<Filter>)
    requires Independent(sch, fs)
    ensures (forall row :: Meaning(sch, Group(AndOp, fs), row) == Meaning(sch, Group(OrOp, fs), row))
            <==> |LiveDocs(sch, fs)| <= 1
  {
    if |LiveDocs(sch, fs)| <= 1 {
      forall row ensures Meaning(sch, Group(AndOp, fs), row) == Meaning(sch, Group(OrOp, fs), row) {
        OneLiveIsDisjunction(sch, fs, row);
      }
    } else {
      var i, j := TwoLive(sch, fs);
      var row := TwoLiveAreSeparated(sch, fs, i, j);
      assert Meaning(sch, Group(AndOp, fs), row) != Meaning(sch, Group(OrOp, fs), row);
    }
  }

  /** Key/value pairs give a disjunction. */
  lemma OrOfPairsIsDisjunction(sch: Schema, es: seq<Entry>, row: Row)
    requires es != []
    ensures Meaning(sch, Group(AndOp, [Entries(OrOp, es)]), row) == Some(Combined(OrOp, EntryMeanings(sch, es, row)))
  {
    var fs := [Entries(OrOp, es)];
    assert fs[1..] == [];
    var t := Combined(OrOp, EntryMeanings(sch, es, row));
    assert Answers(sch, fs, row) == [t];
  }

  /** Two filters handed to Or are both required. */
  lemma OrOfTwoFiltersIsConjunction(sch: Schema, f: Filter, g: Filter, row: Row)
    requires Meaning(sch, f, row) == Some(True) && Meaning(sch, g, row) == Some(False)
    ensures Meaning(sch, Group(AndOp, [f, g]), row) == Some(False)
    ensures Meaning(sch, Group(OrOp, [f, g]), row) == Some(True)
  {
    assert [f, g][1..] == [g] && [g][1..] == [];
    assert Answers(sch, [g], row) == [False];
    assert Answers(sch, [f, g], row) == [True, False];
    assert True in [True, False] && False in [True, False];
  }
}
