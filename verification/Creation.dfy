/** model.go, Create: rows go to the store in batches, in one shared or in many own transactions. */
module Creation {
  import opened Strings
  import opened Schemas
  import opened Faults

  datatype Cell = Empty | Id(n: int) | Data(v: int)

  /** A struct or map handed to Create. */
  type Doc = map<string, Cell>

  datatype StoredRow = StoredRow(id: int, values: seq<Cell>)

  datatype Outcome = Done | Failed | Panicked

  // ----- the store -----

  class Tx {
    var rows: seq<StoredRow>
    var open: bool

    constructor ()
      ensures rows == [] && open
    {
      rows, open := [], true;
    }
  }

  function Numbered(vars: seq<seq<Cell>>, first: int): (rows: seq<StoredRow>)
    ensures |rows| == |vars|
    ensures forall k :: 0 <= k < |vars| ==> rows[k] == StoredRow(first + k, vars[k])
  {
    seq(|vars|, k requires 0 <= k < |vars| => StoredRow(first + k, vars[k]))
  }

  /** One table. Any call may fail; the ids of one statement are consecutive and the last one is reported. */
  class Store {
    var committed: seq<StoredRow>
    var nextId: int
    var statements: seq<seq<seq<Cell>>>
    const calls: Calls

    constructor (calls: Calls)
      ensures committed == [] && nextId == 1 && statements == [] && this.calls == calls
    {
      this.calls := calls;
      committed, nextId, statements := [], 1, [];
    }

    method Begin() returns (ok: bool, tx: Tx)
      modifies calls
      ensures fresh(tx) && tx.rows == [] && tx.open
      ensures ok == !calls.faults(old(calls.clock)) && calls.clock == old(calls.clock) + 1
    {
      tx := new Tx();
      ok := calls.Attempt();
    }

    method Insert(tx: Tx, vars: seq<seq<Cell>>) returns (ok: bool, lastId: int)
      requires tx.open && nextId >= 1 && vars != []
      modifies calls, this`nextId, this`statements, tx`rows
      ensures ok == !calls.faults(old(calls.clock)) && calls.clock == old(calls.clock) + 1
      ensures ok ==> tx.rows == old(tx.rows) + Numbered(vars, old(nextId))
      ensures ok ==> nextId == old(nextId) + |vars| && lastId == nextId - 1
      ensures ok ==> statements == old(statements) + [vars]
      ensures !ok ==> tx.rows == old(tx.rows) && statements == old(statements) && nextId == old(nextId)
    {
      ok := calls.Attempt();
      lastId := 0;
      if ok {
        tx.rows := tx.rows + Numbered(vars, nextId);
        nextId := nextId + |vars|;
        statements := statements + [vars];
        lastId := nextId - 1;
      }
    }

    method Commit(tx: Tx) returns (ok: bool)
      modifies calls, this`committed, tx`open
      ensures ok == !calls.faults(old(calls.clock)) && calls.clock == old(calls.clock) + 1
      ensures committed == if ok then old(committed) + tx.rows else old(committed)
    {
      ok := calls.Attempt();
      if ok {
        committed := committed + tx.rows;
      }
      tx.open := false;
    }

    method Rollback(tx: Tx)
      modifies calls, tx`open
      ensures calls.clock == old(calls.clock) + 1
    {
      var _ := calls.Attempt();
      tx.open := false;
    }
  }

  // ----- rows -----

  /** FieldByName: nothing under a missing name. */
  function FieldByName(doc: Doc, name: string): Cell { if name in doc then doc[name] else Empty }

  function RowVars(doc: Doc, columns: seq<string>, native: map<string, Field>): (r: seq<Cell>)
    requires forall c :: c in columns ==> c in native
    ensures |r| == |columns|
    ensures forall j :: 0 <= j < |columns| ==> r[j] == FieldByName(doc, native[columns[j]].name)
  {
    if columns == [] then [] else
      [FieldByName(doc, native[columns[0]].name)] + RowVars(doc, columns[1..], native)
  }

  /** model.go:178-186. */
  method ExtractRowVars(doc: Doc, columns: seq<string>, native: map<string, Field>) returns (rowVars: seq<Cell>)
    requires forall c :: c in columns ==> c in native
    ensures rowVars == RowVars(doc, columns, native)
  {
    rowVars := [];
    for i := 0 to |columns|
      invariant |rowVars| == i
      invariant forall j :: 0 <= j < i ==> rowVars[j] == FieldByName(doc, native[columns[j]].name)
    {
      var field := native[columns[i]];
      rowVars := rowVars + [FieldByName(doc, field.name)];
    }
  }

  // ----- batches -----

  function Flatten<T>(ss: seq<seq<T>>): seq<T> {
    if ss == [] then [] else ss[0] + Flatten(ss[1..])
  }

  lemma {:induction false} FlattenSnoc<T>(ss: seq<seq<T>>, s: seq<T>)
    ensures Flatten(ss + [s]) == Flatten(ss) + s
  {
    if ss == [] {
      assert [] + [s] == [s] && [s][1..] == [];
      assert s + [] == [] + s;
    } else {
      assert (ss + [s])[1..] == ss[1..] + [s];
      FlattenSnoc(ss[1..], s);
      assert ss[0] + (Flatten(ss[1..]) + s) == ss[0] + Flatten(ss[1..]) + s;
    }
  }

  /** Non-empty runs of at most `size` rows, one after the other from the first row on. */
  ghost predicate Batches(ss: seq<seq<seq<Cell>>>, rows: seq<seq<Cell>>, size: int) {
    Flatten(ss) == rows && forall k :: 0 <= k < |ss| ==> 1 <= |ss[k]| <= size && (k < |ss| - 1 ==> |ss[k]| == size)
  }

  ghost predicate HoldsValues(stored: seq<StoredRow>, vars: seq<seq<Cell>>) {
    |stored| == |vars| && forall k :: 0 <= k < |vars| ==> stored[k].values == vars[k]
  }

  /** model.go:151-161: the ids are written back from the last row to the first. */
  method BackFill(docs: array<Doc>, from: nat, end: nat, field: string, lastId: int)
    requires from <= end <= docs.Length
    modifies docs
    ensures forall k :: from <= k < end ==> docs[k] == old(docs[k])[field := Id(lastId - (end - 1 - k))]
    ensures forall k :: 0 <= k < docs.Length && !(from <= k < end) ==> docs[k] == old(docs[k])
  {
    var insertID := lastId;
    var j := end;
    while j > from
      invariant from <= j <= end && insertID == lastId - (end - j)
      invariant forall k :: j <= k < end ==> docs[k] == old(docs[k])[field := Id(lastId - (end - 1 - k))]
      invariant forall k :: 0 <= k < docs.Length && !(j <= k < end) ==> docs[k] == old(docs[k])
    {
      j := j - 1;
      docs[j] := docs[j][field := Id(insertID)];
      insertID := insertID - 1;
    }
  }

  /** The documents of one batch with the ids of their rows. */
  function FilledIn(docs: seq<Doc>, from: nat, end: nat, aif: Option<string>, first: int): (r: seq<Doc>)
    ensures |r| == |docs|
    ensures forall k :: 0 <= k < |docs| ==>
              r[k] == if from <= k < end && aif.Some? then docs[k][aif.value := Id(first + (k - from))] else docs[k]
  {
    seq(|docs|, k requires 0 <= k < |docs| =>
      if from <= k < end && aif.Some? then docs[k][aif.value := Id(first + (k - from))] else docs[k])
  }

  datatype Options = Options(batchSize: int, sharedTx: bool)

  function AllVars(docs: seq<Doc>, columns: seq<string>, native: map<string, Field>): (r: seq<seq<Cell>>)
    requires forall c :: c in columns ==> c in native
    ensures |r| == |docs|
    ensures forall k :: 0 <= k < |docs| ==> r[k] == RowVars(docs[k], columns, native)
  {
    seq(|docs|, k requires 0 <= k < |docs| => RowVars(docs[k], columns, native))
  }

  /** model.go:123-161: one turn of the batch loop, inside the shared transaction or in one of its own. */
  method CreateBatch(store: Store, shared: Tx, opts: Options, docs: array<Doc>, vars: seq<seq<Cell>>,
                     i: nat, end: nat, aif: Option<string>) returns (ok: bool)
    requires i < end <= docs.Length && |vars| == end - i && store.nextId >= 1
    requires opts.sharedTx ==> shared.open
    modifies store, store.calls, shared, docs
    ensures old(store.calls.clock) <= store.calls.clock
    ensures ok <==> NoFault(store.calls.faults, old(store.calls.clock), store.calls.clock)
    ensures store.nextId >= 1 && (ok && opts.sharedTx ==> shared.open)
    ensures ok ==> store.statements == old(store.statements) + [vars]
    ensures ok ==> store.nextId == old(store.nextId) + |vars|
    ensures ok && opts.sharedTx ==> shared.rows == old(shared.rows) + Numbered(vars, old(store.nextId))
    ensures store.committed == if ok && !opts.sharedTx then old(store.committed) + Numbered(vars, old(store.nextId))
                               else old(store.committed)
    ensures old(store.statements) <= store.statements
    ensures docs[..] == if ok then FilledIn(old(docs[..]), i, end, aif, old(store.nextId)) else old(docs[..])
  {
    hide Numbered, FilledIn;
    var tx := shared;
    if !opts.sharedTx {
      var began;
      began, tx := store.Begin();
      if !began {
        return false;
      }
    }
    var inserted, lastId := store.Insert(tx, vars);
    if !inserted {
      store.Rollback(tx);
      return false;
    }
    if !opts.sharedTx {
      var related := store.calls.Attempt();
      if !related {
        return false;
      }
      var done := store.Commit(tx);
      if !done {
        return false;
      }
    }
    FillIds(docs, i, end, aif, lastId);
    ok := true;
  }

  /** model.go:148-161. */
  method FillIds(docs: array<Doc>, i: nat, end: nat, aif: Option<string>, lastId: int)
    requires i < end <= docs.Length && lastId > 0
    modifies docs
    ensures docs[..] == FilledIn(old(docs[..]), i, end, aif, lastId - (end - i - 1))
  {
    if lastId > 0 && aif.Some? {
      BackFill(docs, i, end, aif.value, lastId);
    }
  }

  ghost predicate IdsWrittenBack(docs: seq<Doc>, before: seq<Doc>, stored: seq<StoredRow>, aif: Option<string>) {
    && |docs| == |before| && |stored| <= |docs|
    && forall k :: 0 <= k < |docs| ==>
         docs[k] == if k < |stored| && aif.Some? then before[k][aif.value := Id(stored[k].id)] else before[k]
  }

  /** The rows stored so far are a prefix of the rows given. */
  ghost predicate IsPrefix(stored: seq<StoredRow>, rows: seq<seq<Cell>>) {
    |stored| <= |rows| && HoldsValues(stored, rows[..|stored|])
  }

  ghost predicate WholeBatches(n: nat, size: int) { exists q: nat :: n == q * size }

  lemma StoredStep(stored: seq<StoredRow>, rows: seq<seq<Cell>>, end: nat, first: int)
    requires IsPrefix(stored, rows) && |stored| <= end <= |rows|
    ensures IsPrefix(stored + Numbered(rows[|stored|..end], first), rows)
  {
    var more := Numbered(rows[|stored|..end], first);
    forall k | 0 <= k < end ensures (stored + more)[k].values == rows[..end][k] {
      if k < |stored| { assert rows[..|stored|][k] == rows[k]; }
    }
  }

  lemma IdsStep(docs: seq<Doc>, before: seq<Doc>, stored: seq<StoredRow>, vars: seq<seq<Cell>>, first: int,
                aif: Option<string>)
    requires IdsWrittenBack(docs, before, stored, aif) && |stored| + |vars| <= |docs|
    ensures IdsWrittenBack(FilledIn(docs, |stored|, |stored| + |vars|, aif, first), before,
                           stored + Numbered(vars, first), aif)
  {
  }

  lemma OneBatchMore(n: nat, size: int)
    requires WholeBatches(n, size) && size > 0
    ensures WholeBatches(n + size, size)
  {
    var q: nat :| n == q * size;
    assert n + size == (q + 1) * size;
  }

  /** What the batch loop has done: the rows it stored and the statements it ran. */
  datatype Run = Run(rows: seq<seq<Cell>>, size: int, before: seq<Doc>, aif: Option<string>,
                     stored: seq<StoredRow>, batches: seq<seq<seq<Cell>>>)
  {
    ghost predicate Invariant(i: nat, docs: seq<Doc>) {
      && |before| == |rows|
      && |stored| == (if i <= |rows| then i else |rows|)
      && IsPrefix(stored, rows)
      && IdsWrittenBack(docs, before, stored, aif)
      && WholeBatches(i, size)
      && Flatten(batches) == rows[..|stored|]
      && (forall k :: 0 <= k < |batches| ==> 1 <= |batches[k]| <= size)
      && (forall k :: 0 <= k < |batches| && (i <= |rows| || k < |batches| - 1) ==> |batches[k]| == size)
    }

    function End(i: nat): int { if i + size > |rows| then |rows| else i + size }

    function Next(i: nat, first: int): Run
      requires i <= End(i) <= |rows|
    {
      var batch := rows[i..End(i)];
      this.(stored := stored + Numbered(batch, first), batches := batches + [batch])
    }

    lemma Start()
      requires |before| == |rows| && stored == [] && batches == []
      ensures Invariant(0, before)
    {
      assert 0 == 0 * size;
    }

    lemma Step(i: nat, docs: seq<Doc>, first: int)
      requires Invariant(i, docs) && i < |rows| && size > 0
      ensures Next(i, first).Invariant(i + size, FilledIn(docs, i, End(i), aif, first))
    {
      var batch := rows[i..End(i)];
      StoredStep(stored, rows, End(i), first);
      IdsStep(docs, before, stored, batch, first, aif);
      FlattenSnoc(batches, batch);
      assert rows[..i] + batch == rows[..End(i)];
      OneBatchMore(i, size);
    }

    lemma Stop(i: nat, docs: seq<Doc>)
      requires Invariant(i, docs)
      ensures IsPrefix(stored, rows) && IdsWrittenBack(docs, before, stored, aif)
      ensures i < |rows| ==> |stored| == i && WholeBatches(i, size)
      ensures i >= |rows| ==> |stored| == |rows| && Batches(batches, rows, size)
    {
      if i >= |rows| { assert rows[..|stored|] == rows; }
    }
  }

  /** model.go:115-162: the batch loop. */
  method CreateBatches(store: Store, shared: Tx, opts: Options, size: int, docs: array<Doc>, allVars: seq<seq<Cell>>,
                       aif: Option<string>)
    returns (outcome: Outcome, ghost run: Run)
    requires |allVars| == docs.Length && store.nextId >= 1 && size != 0
    requires opts.sharedTx ==> shared.open && shared.rows == []
    modifies store, store.calls, shared, docs
    ensures old(store.calls.clock) <= store.calls.clock
    ensures outcome == Failed <==> !NoFault(store.calls.faults, old(store.calls.clock), store.calls.clock)
    ensures run.rows == allVars && run.size == size && run.before == old(docs[..]) && run.aif == aif
    ensures store.committed == if opts.sharedTx then old(store.committed) else old(store.committed) + run.stored
    ensures opts.sharedTx && outcome == Done ==> shared.rows == run.stored && shared.open
    ensures outcome == Panicked <==> size < 0 && |allVars| > 0
    ensures outcome == Panicked ==> run.stored == []
    ensures IsPrefix(run.stored, allVars) && IdsWrittenBack(docs[..], old(docs[..]), run.stored, aif)
    ensures outcome == Failed ==> |run.stored| < |allVars| && WholeBatches(|run.stored|, run.size)
    ensures outcome == Done ==> |run.stored| == |allVars| && Batches(run.batches, allVars, run.size)
    ensures outcome == Done ==> store.statements == old(store.statements) + run.batches
  {
    hide Run.Invariant, Numbered, NoFault, IsPrefix, IdsWrittenBack, WholeBatches, Batches, FilledIn;
    var n := |allVars|;
    run := Run(allVars, size, docs[..], aif, [], []);
    run.Start();
    outcome := Done;
    ghost var t0 := store.calls.clock;
    NoFaultYet(store.calls.faults, t0);
    var i := 0;
    while i < n
      invariant old(store.calls.clock) <= store.calls.clock
      invariant NoFault(store.calls.faults, old(store.calls.clock), store.calls.clock)
      invariant outcome == Done && 0 <= i && run.Invariant(i, docs[..])
      invariant run.rows == allVars && run.size == size && run.before == old(docs[..]) && run.aif == aif
      invariant store.nextId >= 1 && (opts.sharedTx ==> shared.open && shared.rows == run.stored)
      invariant store.committed == if opts.sharedTx then old(store.committed) else old(store.committed) + run.stored
      invariant store.statements == old(store.statements) + run.batches
      invariant size < 0 ==> i == 0 && run.stored == []
      decreases n - i
    {
      var end := if i + size > n then n else i + size;
      if end < i {
        outcome := Panicked;
        break;
      }
      ghost var first, was := store.nextId, docs[..];
      Regroup(old(store.committed), run.stored, Numbered(allVars[i..end], first));
      Regroup(old(store.statements), run.batches, [allVars[i..end]]);
      ghost var t := store.calls.clock;
      var ok := CreateBatch(store, shared, opts, docs, allVars[i..end], i, end, aif);
      NoFaultJoins(store.calls.faults, t0, t, store.calls.clock);
      if !ok {
        outcome := Failed;
        break;
      }
      run.Step(i, was, first);
      run := run.Next(i, first);
      i := i + size;
    }
    run.Stop(i, docs[..]);
  }

  /**
   model.go:70-175. Over every pattern of failures: with a shared transaction the store gains all rows or none;
   otherwise it gains a prefix of the rows that is made of whole batches. It fails exactly when one of its calls
   does. On success every row is stored once, in order, by statements of at most BatchSize rows, 50 by default. In every case
   exactly the documents of the inserted rows carry ids: those their rows were inserted under, rolled back or not.
   */
  method Create(store: Store, docs: array<Doc>, opts: Options, columns: seq<string>, native: map<string, Field>,
                aif: Option<string>)
    returns (outcome: Outcome, ghost inserted: seq<StoredRow>, ghost batches: seq<seq<seq<Cell>>>)
    requires store.nextId >= 1 && forall c :: c in columns ==> c in native
    modifies store, store.calls, docs
    ensures outcome == Failed <==> !NoFault(store.calls.faults, old(store.calls.clock), store.calls.clock)
    ensures old(store.calls.clock) <= store.calls.clock
    ensures outcome == Panicked <==>
              opts.batchSize < 0 && docs.Length > 0 && (opts.sharedTx ==> !store.calls.faults(old(store.calls.clock)))
    ensures outcome == Panicked ==> inserted == []
    ensures store.committed == old(store.committed) + if opts.sharedTx && outcome != Done then [] else inserted
    ensures IsPrefix(inserted, AllVars(old(docs[..]), columns, native))
    ensures IdsWrittenBack(docs[..], old(docs[..]), inserted, aif)
    ensures |inserted| < docs.Length && opts.batchSize > 0 ==> WholeBatches(|inserted|, opts.batchSize)
    ensures |inserted| < docs.Length && opts.batchSize == 0 ==> WholeBatches(|inserted|, 50)
    ensures outcome == Failed && !opts.sharedTx ==> |inserted| < docs.Length
    ensures outcome == Done ==>
              && |inserted| == docs.Length
              && store.statements == old(store.statements) + batches
    ensures outcome == Done && opts.batchSize > 0 ==>
              Batches(batches, AllVars(old(docs[..]), columns, native), opts.batchSize)
    ensures outcome == Done && opts.batchSize == 0 ==> Batches(batches, AllVars(old(docs[..]), columns, native), 50)
    ensures outcome == Done && opts.batchSize < 0 ==> docs.Length == 0 && batches == []
  {
    hide IsPrefix, IdsWrittenBack, WholeBatches, Batches;
    var size := opts.batchSize;
    if size == 0 {
      size := 50;
    }
    var allVars := AllVars(docs[..], columns, native);
    var shared := new Tx();
    NothingYet(docs[..], allVars, size, aif);
    if opts.sharedTx {
      var began;
      began, shared := store.Begin();
      if !began {
        return Failed, [], [];
      }
    }
    ghost var run;
    outcome, run := CreateBatches(store, shared, opts, size, docs, allVars, aif);
    inserted, batches := run.stored, run.batches;
    if size < 0 { NoBatches(batches, allVars, size); }
    if opts.sharedTx && outcome == Done {
      var related := store.calls.Attempt();
      if !related {
        return Failed, inserted, batches;
      }
      var done := store.Commit(shared);
      if !done {
        return Failed, inserted, batches;
      }
    }
  }

  lemma NoBatches(batches: seq<seq<seq<Cell>>>, rows: seq<seq<Cell>>, size: int)
    requires size < 0
    ensures Batches(batches, rows, size) ==> batches == []
  {
    assert batches != [] ==> |batches[0]| >= 0;
  }

  lemma NothingYet(docs: seq<Doc>, rows: seq<seq<Cell>>, size: int, aif: Option<string>)
    ensures IsPrefix([], rows) && IdsWrittenBack(docs, docs, [], aif) && WholeBatches(0, size)
  {
    assert 0 == 0 * size;
  }
}
