/** connection.go, BatchExec: a text of several statements runs in one transaction, the parameters dealt out. */
module BatchExec {
  import opened Strings
  import opened SqlText
  import opened Filters
  import opened Faults

  /** A statement sent to the database with its parameters. */
  datatype Exec = Exec(stmt: string, params: seq<Value>)

  class Connection {
    var committed: seq<Exec>
    const calls: Calls

    constructor (calls: Calls)
      ensures committed == [] && this.calls == calls
    {
      this.calls := calls;
      committed := [];
    }

    /**
     connection.go:88-139. The error of the loop is a new variable, so the deferred function sees none and
     always commits: what ran before the error stays. An error of the commit itself is not returned.
     */
    method BatchExec(query: string, args: seq<Value>) returns (err: bool)
      modifies this, calls
      ensures committed == CommittedBy(old(committed), StatementsOf(query), args, calls.faults, old(calls.clock))
      ensures err == ErrorBy(StatementsOf(query), args, calls.faults, old(calls.clock))
      ensures calls.faults(old(calls.clock)) ==> err && committed == old(committed) && calls.clock == old(calls.clock) + 1
      ensures !err <==> var stmts := StatementsOf(query);
                        NoFault(calls.faults, old(calls.clock), old(calls.clock) + 1 + |stmts|) && Need(stmts) <= |args|
    {
      hide Formatted, Normalised, MarkerSafe, Split, NonBlank, Deal, Ran, CallsMade, Need;
      ErrorExactlyWhen(StatementsOf(query), args, calls.faults, calls.clock);
      var q := FormatSQL(query);
      var began := calls.Attempt();
      if !began {
        return true;
      }
      var pending;
      err, pending := RunAll(Split(q, ";"), args);
      var done := calls.Attempt();
      if done {
        committed := committed + pending;
      }
    }

    /** connection.go:104-122: the statements run inside the open transaction, up to the first error. */
    method RunAll(sqlStatements: seq<string>, args: seq<Value>) returns (err: bool, pending: seq<Exec>)
      modifies calls
      ensures var stmts := NonBlank(sqlStatements);
              var plan := Deal(stmts, args, 0);
              var ran := Ran(plan, calls.faults, old(calls.clock));
              && pending == plan[..ran]
              && err == (ran < |stmts|)
              && calls.clock == old(calls.clock) + CallsMade(plan, ran)
    {
      ghost var stmts := NonBlank(sqlStatements);
      ghost var start := calls.clock;
      ghost var rest := stmts;
      pending, err := [], false;
      var paramIndex: nat := 0;
      hide Deal, Progress, Ran, CallsMade;
      assert sqlStatements[0..] == sqlStatements;
      for i := 0 to |sqlStatements|
        invariant !err && NonBlank(sqlStatements[i..]) == rest && Progress(stmts, args, pending, rest, paramIndex)
        invariant calls.clock == start + |pending| && NoFault(calls.faults, start, calls.clock)
      {
        assert sqlStatements[i..][0] == sqlStatements[i] && sqlStatements[i..][1..] == sqlStatements[i + 1..];
        var stmt := TrimSpace(sqlStatements[i]);
        if stmt != "" {
          ProgressTurn(stmts, args, pending, rest, paramIndex);
          var params := ExtractParams(stmt, args, paramIndex);
          if params == None {
            err := true;
            break;
          }
          var ok := calls.Attempt();
          if !ok {
            err := true;
            break;
          }
          paramIndex := paramIndex + |params.value|;
          rest := rest[1..];
          pending := pending + [Exec(stmt, params.value)];
        }
      }
      Finished(stmts, args, pending, rest, paramIndex, calls.faults, start);
    }
  }

  /** What ran so far and what is left are together the plan. */
  predicate Progress(stmts: seq<string>, args: seq<Value>, pending: seq<Exec>, rest: seq<string>, paramIndex: nat) {
    && paramIndex <= |args| && |pending| + |rest| == |stmts|
    && pending + Deal(rest, args, paramIndex) == Deal(stmts, args, 0)
  }

  lemma ProgressTurn(stmts: seq<string>, args: seq<Value>, pending: seq<Exec>, rest: seq<string>, paramIndex: nat)
    requires Progress(stmts, args, pending, rest, paramIndex) && rest != []
    ensures match ExtractParams(rest[0], args, paramIndex)
            case None => pending == Deal(stmts, args, 0)
            case Some(ps) =>
              && |pending| < |Deal(stmts, args, 0)|
              && Progress(stmts, args, pending + [Exec(rest[0], ps)], rest[1..], paramIndex + |ps|)
  {
    match ExtractParams(rest[0], args, paramIndex) {
      case None => assert pending + [] == pending;
      case Some(ps) => Regroup(pending, [Exec(rest[0], ps)], Deal(rest[1..], args, paramIndex + |ps|));
    }
  }

  /** The loop ends with the whole plan, or at a fault. */
  lemma Finished(stmts: seq<string>, args: seq<Value>, pending: seq<Exec>, rest: seq<string>, paramIndex: nat,
                 faults: Oracle, start: nat)
    requires Progress(stmts, args, pending, rest, paramIndex) && NoFault(faults, start, start + |pending|)
    ensures var plan := Deal(stmts, args, 0);
            && |pending| <= |plan| && plan[..|pending|] == pending
            && (|pending| == |plan| || faults(start + |pending|) ==> Ran(plan, faults, start) == |pending|)
            && (rest == [] ==> |pending| == |stmts| == |plan|)
  {
    var plan := Deal(stmts, args, 0);
    assert |plan| == |pending| + |Deal(rest, args, paramIndex)|;
    if |pending| == |plan| || faults(start + |pending|) {
      SuccessesIs(faults, start, |plan|, |pending|);
    }
  }

  function NonBlank(parts: seq<string>): seq<string> {
    if parts == [] then [] else
      var stmt := TrimSpace(parts[0]);
      (if stmt != "" then [stmt] else []) + NonBlank(parts[1..])
  }

  /** The statements of a text: its parts between semicolons that are not blank. */
  function StatementsOf(query: string): seq<string> { NonBlank(Split(Formatted(query), ";")) }

  /** connection.go:126-139. */
  function ExtractParams(stmt: string, params: seq<Value>, paramIndex: nat): (r: Option<seq<Value>>)
    ensures r.Some? <==> paramIndex + Count(stmt, '?') <= |params|
    ensures r.Some? ==> |r.value| == Count(stmt, '?')
  {
    var n := Count(stmt, '?');
    if paramIndex + n > |params| then None else Some(params[paramIndex..paramIndex + n])
  }

  /** The statements that get parameters, each with its own; it stops at the first that cannot. */
  function Deal(stmts: seq<string>, args: seq<Value>, from: nat): (r: seq<Exec>)
    ensures |r| <= |stmts|
  {
    if stmts == [] then [] else
      match ExtractParams(stmts[0], args, from)
      case None => []
      case Some(ps) => [Exec(stmts[0], ps)] + Deal(stmts[1..], args, from + |ps|)
  }

  /** Placeholders of several statements. */
  function Need(stmts: seq<string>): nat {
    if stmts == [] then 0 else Count(stmts[0], '?') + Need(stmts[1..])
  }

  function AllParams(plan: seq<Exec>): seq<Value> {
    if plan == [] then [] else plan[0].params + AllParams(plan[1..])
  }

  /**
   The parameters are dealt as a partition: the slices of the first k statements are consecutive and together
   are the first arguments, as many as these statements have placeholders. The dealing stops exactly at the first
   statement whose cumulative need exceeds the arguments.
   */
  lemma {:induction false} DealPartitions(stmts: seq<string>, args: seq<Value>, from: nat, k: nat)
    requires from <= |args| && k <= |stmts|
    ensures var plan := Deal(stmts, args, from);
            && (k <= |plan| <==> from + Need(stmts[..k]) <= |args|)
            && (k <= |plan| ==>
                  && AllParams(plan[..k]) == args[from..from + Need(stmts[..k])]
                  && forall i :: 0 <= i < k ==> plan[i].stmt == stmts[i] && |plan[i].params| == Count(stmts[i], '?'))
  {
    var plan := Deal(stmts, args, from);
    if k > 0 {
      assert stmts[..k][1..] == stmts[1..][..k - 1];
      var n := Count(stmts[0], '?');
      if from + n <= |args| {
        DealPartitions(stmts[1..], args, from + n, k - 1);
        assert plan[1..] == Deal(stmts[1..], args, from + n);
        if k <= |plan| {
          assert plan[..k][1..] == plan[1..][..k - 1];
          assert AllParams(plan[..k]) == plan[0].params + AllParams(plan[1..][..k - 1]);
          forall i | 0 <= i < k ensures plan[i].stmt == stmts[i] && |plan[i].params| == Count(stmts[i], '?') {
            if i > 0 { assert plan[i] == plan[1..][i - 1] && stmts[i] == stmts[1..][i - 1]; }
          }
        }
      }
    }
  }

  // ----- what a run leaves behind -----

  /** How many statements of the plan run before the first failing call. */
  function Ran(plan: seq<Exec>, faults: Oracle, clock: nat): (r: nat)
    ensures r <= |plan|
  {
    Successes(faults, clock, |plan|)
  }

  function CallsMade(plan: seq<Exec>, ran: nat): nat { if ran < |plan| then ran + 1 else ran }

  /** The executions committed after a run that starts at a given time: it begins, runs, and commits what ran. */
  function CommittedBy(before: seq<Exec>, stmts: seq<string>, args: seq<Value>, faults: Oracle, clock: nat): seq<Exec> {
    var plan := Deal(stmts, args, 0);
    var ran := Ran(plan, faults, clock + 1);
    if faults(clock) || faults(clock + 1 + CallsMade(plan, ran)) then before else before + plan[..ran]
  }

  /** The error a run returns: no transaction, or a statement that did not run. */
  function ErrorBy(stmts: seq<string>, args: seq<Value>, faults: Oracle, clock: nat): bool {
    faults(clock) || Ran(Deal(stmts, args, 0), faults, clock + 1) < |stmts|
  }

  /** Without faults everything dealt runs and is committed; the error says that the arguments did not reach. */
  lemma NoFaultRunsPlan(before: seq<Exec>, stmts: seq<string>, args: seq<Value>, faults: Oracle, clock: nat)
    requires NoFault(faults, clock, clock + |stmts| + 2)
    ensures var plan := Deal(stmts, args, 0);
            && CommittedBy(before, stmts, args, faults, clock) == before + plan
            && (ErrorBy(stmts, args, faults, clock) <==> |plan| < |stmts|)
            && (|plan| < |stmts| <==> Need(stmts) > |args|)
  {
    var plan := Deal(stmts, args, 0);
    SuccessesIs(faults, clock + 1, |plan|, |plan|);
    assert plan[..|plan|] == plan;
    DealPartitions(stmts, args, 0, |stmts|);
    assert stmts[..|stmts|] == stmts;
  }

  /** A run returns no error exactly when it begins, every statement runs and the arguments reach. */
  lemma ErrorExactlyWhen(stmts: seq<string>, args: seq<Value>, faults: Oracle, clock: nat)
    ensures !ErrorBy(stmts, args, faults, clock) <==> NoFault(faults, clock, clock + 1 + |stmts|) && Need(stmts) <= |args|
  {
    hide Deal, Need, Successes;
    AllDealt(stmts, args);
    NoFaultJoins(faults, clock, clock + 1, clock + 1 + |stmts|);
    var plan := Deal(stmts, args, 0);
    if NoFault(faults, clock + 1, clock + 1 + |stmts|) && |plan| == |stmts| { SuccessesIs(faults, clock + 1, |plan|, |plan|); }
  }

  lemma AllDealt(stmts: seq<string>, args: seq<Value>)
    ensures |Deal(stmts, args, 0)| == |stmts| <==> Need(stmts) <= |args|
  {
    DealPartitions(stmts, args, 0, |stmts|);
    assert stmts[..|stmts|] == stmts;
  }

  /** The k statements before the first that fails or lacks arguments ran. */
  predicate RunsUpTo(stmts: seq<string>, args: seq<Value>, faults: Oracle, clock: nat, k: nat) {
    && k <= |stmts| && NoFault(faults, clock + 1, clock + 1 + k) && Need(stmts[..k]) <= |args|
    && (k == |stmts| || faults(clock + 1 + k) || Need(stmts[..k + 1]) > |args|)
  }

  /** The call that commits: after the k statements that ran, and the one that failed if it was sent. */
  function CommitAt(stmts: seq<string>, args: seq<Value>, clock: nat, k: nat): nat
    requires k <= |stmts|
  {
    clock + 1 + k + if k < |stmts| && Need(stmts[..k + 1]) <= |args| then 1 else 0
  }

  /** The i-th statement on its arguments: as many as it has placeholders, behind those of the statements before. */
  predicate IsDealt(stmts: seq<string>, args: seq<Value>, i: nat, e: Exec) {
    && i < |stmts| && Need(stmts[..i]) <= Need(stmts[..i + 1]) <= |args|
    && e == Exec(stmts[i], args[Need(stmts[..i])..Need(stmts[..i + 1])])
  }

  /** What is committed, statement by statement: nothing without a transaction or its commit, else all that ran. */
  lemma CommitsWhatRan(before: seq<Exec>, stmts: seq<string>, args: seq<Value>, faults: Oracle, clock: nat, k: nat)
    requires RunsUpTo(stmts, args, faults, clock, k)
    ensures var after := CommittedBy(before, stmts, args, faults, clock);
            if faults(clock) || faults(CommitAt(stmts, args, clock, k)) then after == before
            else
              exists ran :: after == before + ran && |ran| == k && forall i :: 0 <= i < k ==> IsDealt(stmts, args, i, ran[i])
  {
    hide Deal, Need, Successes, IsDealt;
    var plan := Deal(stmts, args, 0);
    RanExactly(stmts, args, faults, clock, k);
    forall i | 0 <= i < k ensures IsDealt(stmts, args, i, plan[i]) {
      DealtAt(stmts, args, k, i);
    }
    var ran := plan[..k];
    assert forall i :: 0 <= i < k ==> IsDealt(stmts, args, i, ran[i]);
  }

  lemma RanExactly(stmts: seq<string>, args: seq<Value>, faults: Oracle, clock: nat, k: nat)
    requires RunsUpTo(stmts, args, faults, clock, k)
    ensures var plan := Deal(stmts, args, 0);
            && k <= |plan| && Ran(plan, faults, clock + 1) == k
            && CommitAt(stmts, args, clock, k) == clock + 1 + CallsMade(plan, k)
  {
    hide Deal, Need, Successes;
    DealtReaches(stmts, args, k);
    if k < |stmts| { DealtReaches(stmts, args, k + 1); }
    SuccessesIs(faults, clock + 1, |Deal(stmts, args, 0)|, k);
  }

  lemma DealtReaches(stmts: seq<string>, args: seq<Value>, k: nat)
    requires k <= |stmts|
    ensures k <= |Deal(stmts, args, 0)| <==> Need(stmts[..k]) <= |args|
  {
    DealPartitions(stmts, args, 0, k);
  }

  lemma DealtAt(stmts: seq<string>, args: seq<Value>, k: nat, i: nat)
    requires i < k <= |stmts| && k <= |Deal(stmts, args, 0)|
    ensures IsDealt(stmts, args, i, Deal(stmts, args, 0)[i])
  {
    hide Deal, Need, AllParams;
    var plan := Deal(stmts, args, 0);
    DealPartitions(stmts, args, 0, i);
    DealPartitions(stmts, args, 0, i + 1);
    assert stmts[..i + 1] == stmts[..i] + [stmts[i]] && plan[..i + 1] == plan[..i] + [plan[i]];
    NeedAppend(stmts[..i], stmts[i]);
    ParamsAppend(plan[..i], plan[i]);
    assert plan[i].params == AllParams(plan[..i + 1])[Need(stmts[..i])..];
  }

  lemma {:induction false} NeedAppend(stmts: seq<string>, stmt: string)
    ensures Need(stmts + [stmt]) == Need(stmts) + Count(stmt, '?')
  {
    if stmts != [] {
      assert (stmts + [stmt])[1..] == stmts[1..] + [stmt];
      NeedAppend(stmts[1..], stmt);
    }
  }

  lemma {:induction false} ParamsAppend(plan: seq<Exec>, e: Exec)
    ensures AllParams(plan + [e]) == AllParams(plan) + e.params
  {
    if plan == [] {
      assert plan + [e] == [e] && [e][1..] == [];
    } else {
      assert (plan + [e])[1..] == plan[1..] + [e];
      ParamsAppend(plan[1..], e);
      Regroup(plan[0].params, AllParams(plan[1..]), e.params);
    }
  }

  /** All statements commit or none do. */
  predicate AllOrNone(before: seq<Exec>, after: seq<Exec>, stmts: seq<string>, args: seq<Value>) {
    var plan := Deal(stmts, args, 0);
    after == before || (|plan| == |stmts| && after == before + plan)
  }

  /**
   As the code commits after an error, a run is all-or-none whatever calls fail exactly when there is at most one
   statement, or the first statement alone asks for more parameters than there are.
   */
  lemma AtomicExactlyWhen(query: string, args: seq<Value>)
    ensures var stmts := StatementsOf(query);
            (forall before, faults, clock :: AllOrNone(before, CommittedBy(before, stmts, args, faults, clock), stmts, args))
            <==> |stmts| <= 1 || Count(stmts[0], '?') > |args|
  {
    var stmts := StatementsOf(query);
    if |stmts| <= 1 || Count(stmts[0], '?') > |args| {
      forall before, faults, clock
        ensures AllOrNone(before, CommittedBy(before, stmts, args, faults, clock), stmts, args)
      {
        FewStatementsAreAtomic(before, stmts, args, faults, clock);
      }
    } else {
      var faults := OnlySecondFails(stmts, args);
      assert !AllOrNone([], CommittedBy([], stmts, args, faults, 0), stmts, args);
    }
  }

  lemma FewStatementsAreAtomic(before: seq<Exec>, stmts: seq<string>, args: seq<Value>, faults: Oracle, clock: nat)
    requires |stmts| <= 1 || Count(stmts[0], '?') > |args|
    ensures AllOrNone(before, CommittedBy(before, stmts, args, faults, clock), stmts, args)
  {
    var plan := Deal(stmts, args, 0);
    var ran := Ran(plan, faults, clock + 1);
    assert before + [] == before;
    if ran > 0 {
      assert |plan| == |stmts| == 1 && plan[..ran] == plan;
    }
  }

  /** The second statement fails, for want of arguments or by a fault: the first one is committed alone. */
  lemma OnlySecondFails(stmts: seq<string>, args: seq<Value>) returns (faults: Oracle)
    requires |stmts| > 1 && Count(stmts[0], '?') <= |args|
    ensures !AllOrNone([], CommittedBy([], stmts, args, faults, 0), stmts, args)
  {
    var plan := Deal(stmts, args, 0);
    assert |plan| >= 1;
    faults := t => |plan| > 1 && t == 2;
    SuccessesIs(faults, 1, |plan|, 1);
    assert [] + plan[..1] == plan[..1];
    assert CommittedBy([], stmts, args, faults, 0) == plan[..1];
  }
}
