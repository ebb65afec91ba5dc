/** model.go, relatesWrite for HAS_MANY: the children of one parent are brought in line with a submitted list. */
module ChildWrites {
  import opened Strings
  import opened Schemas
  import opened Filters
  import opened Population
  import opened Maps

  // ----- strategies -----

  datatype WriteOptions = WriteOptions(ignore: seq<string>, append: seq<string>, upsert: seq<string>, replace: seq<string>)

  function At(m: map<string, int>, name: string): int { if name in m then m[name] else 0 }

  /** One list of names, each taking the number unless it already has one. */
  method Assign(m0: map<string, int>, names: seq<string>, level: int) returns (m: map<string, int>)
    requires level > 0 && forall k :: k in m0 ==> m0[k] > 0
    ensures forall k :: k in m ==> m[k] > 0
    ensures forall k :: At(m, k) == if At(m0, k) == 0 && k in names && k != "" then level else At(m0, k)
  {
    m := m0;
    for i := 0 to |names|
      invariant forall k :: k in m ==> m[k] > 0
      invariant forall k :: At(m, k) == if At(m0, k) == 0 && k in names[..i] && k != "" then level else At(m0, k)
    {
      assert names[..i + 1] == names[..i] + [names[i]];
      var item := names[i];
      if item == "" || At(m, item) > 0 {
        continue;
      }
      m := m[item := level];
    }
    assert names[..|names|] == names;
  }

  predicate Unlisted(opts: WriteOptions, name: string) {
    name !in opts.ignore && name !in opts.append && name !in opts.upsert && name !in opts.replace
  }

  /** A field of that name carries a relation. */
  ghost predicate HasRelation(sch: Schema, name: string) {
    exists k :: k in sch.fields && sch.fields[k].name == name && sch.fields[k].typ != "" && sch.fields[k].relation.Some?
  }

  /** model.go:1108-1148. A name that several lists hold takes the number of ignore, replace, upsert or append, in this order. */
  method CalcFieldStrategy(sch: Schema, opts: Option<WriteOptions>) returns (strategy: map<string, int>)
    ensures opts.Some? ==> forall name :: name != "" ==>
              && (name in opts.value.ignore ==> At(strategy, name) == 1)
              && (name in opts.value.replace && name !in opts.value.ignore ==> At(strategy, name) == 2)
              && (name in opts.value.upsert && name !in opts.value.ignore && name !in opts.value.replace ==> At(strategy, name) == 3)
              && (name in opts.value.append && name !in opts.value.ignore && name !in opts.value.replace && name !in opts.value.upsert ==>
                    At(strategy, name) == 4)
    ensures forall name :: opts.None? || name == "" || Unlisted(opts.value, name) ==>
              At(strategy, name) == if HasRelation(sch, name) then 4 else 0
  {
    strategy := map[];
    if opts.Some? {
      strategy := Assign(strategy, opts.value.ignore, 1);
      strategy := Assign(strategy, opts.value.replace, 2);
      strategy := Assign(strategy, opts.value.upsert, 3);
      strategy := Assign(strategy, opts.value.append, 4);
    }
    strategy := AssignRest(sch, strategy);
  }

  /** model.go:1138-1147. */
  method AssignRest(sch: Schema, listed: map<string, int>) returns (strategy: map<string, int>)
    ensures forall name :: At(strategy, name) ==
              if At(listed, name) != 0 then At(listed, name) else if HasRelation(sch, name) then 4 else 0
  {
    strategy := listed;
    var left := sch.fields.Keys;
    while left != {}
      invariant left <= sch.fields.Keys
      invariant forall name :: At(strategy, name) ==
                  if At(listed, name) != 0 then At(listed, name)
                  else if exists k :: k in sch.fields.Keys - left && sch.fields[k].name == name && sch.fields[k].typ != ""
                                      && sch.fields[k].relation.Some? then 4 else 0
      decreases left
    {
      var k :| k in left;
      left := left - {k};
      var f := sch.fields[k];
      if f.Valid() && f.relation.Some? && At(strategy, f.name) == 0 {
        strategy := strategy[f.name := 4];
      }
    }
  }

  // ----- the store -----

  /** Rows by primary key. */
  type Rows = map<int, Record>

  /** One submitted child; a missing, nil or zero primary key is None. */
  datatype Input = Input(id: Option<int>, values: Record)

  datatype Change = Change(id: int, values: Record)

  ghost predicate IsChild(rows: Rows, field: string, parent: Value, id: int) {
    id in rows && field in rows[id] && rows[id][field] == parent
  }

  ghost function Children(rows: Rows, field: string, parent: Value): (r: set<int>)
    ensures forall id :: id in r <==> IsChild(rows, field, parent, id)
  {
    set id | id in rows && field in rows[id] && rows[id][field] == parent
  }

  function Created(rows: Rows, nextId: int, docs: seq<Record>): Rows
    decreases docs
  {
    if docs == [] then rows else Created(rows[nextId := docs[0]], nextId + 1, docs[1..])
  }

  function Updated(rows: Rows, changes: seq<Change>): Rows {
    if changes == [] then rows
    else
      var c := changes[0];
      Updated(if c.id in rows then rows[c.id := rows[c.id] + c.values] else rows, changes[1..])
  }

  /** Without the rows whose key equals every one of the keys; no keys, no condition, nothing deleted. */
  function Deleted(rows: Rows, keys: set<int>): Rows {
    if keys == {} then rows else map id | id in rows && !(forall k :: k in keys ==> k == id) :: rows[id]
  }

  function Members(keys: seq<int>): (r: set<int>)
    ensures forall k :: k in r <==> k in keys
    ensures r == {} <==> keys == []
  {
    if keys != [] then assert keys[0] in keys; set k | k in keys else {}
  }

  /**
   The table of the children. Creating and deleting commit at once; an update stays pending in the transaction of
   the model until its owner commits it (model.go:188-197, 826-829).
   */
  class Table {
    var rows: Rows
    var pending: seq<Change>
    var nextId: int

    ghost predicate Valid()
      reads this
    {
      forall id :: id in rows ==> id < nextId
    }

    constructor ()
      ensures Valid() && rows == map[] && pending == []
    {
      rows, pending, nextId := map[], [], 1;
    }

    method FindByField(field: string, parent: Value) returns (ids: seq<int>)
      ensures forall id :: id in ids <==> IsChild(rows, field, parent, id)
    {
      ids := [];
      var left := rows.Keys;
      while left != {}
        invariant left <= rows.Keys
        invariant forall id :: id in ids <==> IsChild(rows, field, parent, id) && id !in left
        decreases left
      {
        var id := Pick(left);
        left := left - {id};
        if FieldOf(rows[id], field) == Some(parent) {
          ids := ids + [id];
        }
      }
    }

    method Create(docs: seq<Record>)
      requires Valid()
      modifies this`rows, this`nextId
      ensures Valid() && rows == Created(old(rows), old(nextId), docs) && nextId == old(nextId) + |docs|
    {
      for i := 0 to |docs|
        invariant Valid() && nextId == old(nextId) + i
        invariant Created(rows, nextId, docs[i..]) == Created(old(rows), old(nextId), docs)
      {
        assert docs[i..][1..] == docs[i + 1..];
        rows := rows[nextId := docs[i]];
        nextId := nextId + 1;
      }
    }

    method Update(change: Change)
      modifies this`pending
      ensures pending == old(pending) + [change]
    {
      pending := pending + [change];
    }

    method Delete(keys: seq<int>)
      modifies this`rows
      ensures rows == Deleted(old(rows), Members(keys))
    {
      rows := Deleted(rows, Members(keys));
    }

    /** The owner of the transaction commits it, or there is no owner and the updates are lost. */
    method EndTransaction(committed: bool)
      modifies this`rows, this`pending
      ensures pending == [] && rows == if committed then Updated(old(rows), old(pending)) else old(rows)
    {
      if committed {
        rows := Updated(rows, pending);
      }
      pending := [];
    }
  }

  // ----- sorting the inputs -----

  function ToCreate(inputs: seq<Input>, field: string, parent: Value): seq<Record> {
    if inputs == [] then [] else
      (if inputs[0].id.None? then [inputs[0].values[field := parent]] else []) + ToCreate(inputs[1..], field, parent)
  }

  function ToUpdate(inputs: seq<Input>, field: string, parent: Value): seq<Change> {
    if inputs == [] then [] else
      (if inputs[0].id.Some? then [Change(inputs[0].id.value, inputs[0].values[field := parent])] else [])
      + ToUpdate(inputs[1..], field, parent)
  }

  /** model.go:1260-1286: every input goes to exactly one of the two lists, in order. */
  method SortInputs(inputs: seq<Input>, field: string, parent: Value)
    returns (createDocs: seq<Record>, updateDocs: seq<Change>)
    ensures createDocs == ToCreate(inputs, field, parent) && updateDocs == ToUpdate(inputs, field, parent)
    ensures |createDocs| + |updateDocs| == |inputs|
  {
    createDocs, updateDocs := [], [];
    for i := 0 to |inputs|
      invariant createDocs + ToCreate(inputs[i..], field, parent) == ToCreate(inputs, field, parent)
      invariant updateDocs + ToUpdate(inputs[i..], field, parent) == ToUpdate(inputs, field, parent)
      invariant |createDocs| + |updateDocs| == i
    {
      assert inputs[i..][1..] == inputs[i + 1..];
      var values := inputs[i].values[field := parent];
      var creates, updates := ToCreate(inputs[i + 1..], field, parent), ToUpdate(inputs[i + 1..], field, parent);
      assert [] + creates == creates && [] + updates == updates;
      if inputs[i].id.Some? {
        Regroup(updateDocs, [Change(inputs[i].id.value, values)], updates);
        updateDocs := updateDocs + [Change(inputs[i].id.value, values)];
      } else {
        Regroup(createDocs, [values], creates);
        createDocs := createDocs + [values];
      }
    }
  }

  predicate OneDiffers(stored: seq<int>, k: int) { exists s :: s in stored && s != k }

  lemma OneDiffersPush(stored: seq<int>, x: int, k: int)
    ensures OneDiffers(stored + [x], k) <==> OneDiffers(stored, k) || x != k
  {
    assert x in stored + [x];
    assert forall s :: s in stored ==> s in stored + [x];
  }

  function Ids(changes: seq<Change>): set<int> { set c | c in changes :: c.id }

  /** model.go:1288-1304: for every stored row, the keys of the inputs that differ from it. */
  method DeleteKeys(stored: seq<int>, existing: seq<Change>) returns (keys: seq<int>)
    ensures forall k :: k in keys <==> k in Ids(existing) && OneDiffers(stored, k)
  {
    keys := [];
    for i := 0 to |stored|
      invariant forall k :: k in keys <==> k in Ids(existing) && OneDiffers(stored[..i], k)
    {
      assert stored[..i + 1] == stored[..i] + [stored[i]];
      ghost var before := keys;
      for j := 0 to |existing|
        invariant forall k :: k in keys <==> k in before || (k in Ids(existing[..j]) && stored[i] != k)
      {
        assert existing[..j + 1] == existing[..j] + [existing[j]];
        if existing[j].id != stored[i] {
          keys := keys + [existing[j].id];
        }
      }
      assert existing[..|existing|] == existing;
      forall k { OneDiffersPush(stored[..i], stored[i], k); }
    }
    assert stored[..|stored|] == stored;
  }

  // ----- the write -----

  /** The keys behind the delete condition, for the stored children S and the submitted keys E. */
  function DeleteSet(S: set<int>, E: set<int>): (r: set<int>)
    ensures forall e :: e in r <==> e in E && exists s :: s in S && e != s
  {
    set e, s | e in E && s in S && e != s :: e
  }

  /** The rows after the steps that the level allows, updates included. */
  ghost function Written(rows: Rows, nextId: int, field: string, parent: Value, inputs: seq<Input>, level: int): Rows {
    var changes := ToUpdate(inputs, field, parent);
    var r1 := if level >= 1 then Created(rows, nextId, ToCreate(inputs, field, parent)) else rows;
    var r2 := if level >= 2 then Updated(r1, changes) else r1;
    if level >= 3 then Deleted(r2, DeleteSet(Children(rows, field, parent), Ids(changes))) else r2
  }

  /** The levels written down at model.go:63-68: ignore -1, append 1, upsert 2, replace 3, which is the default. */
  function DocumentedLevel(opts: WriteOptions, name: string): int {
    if name in opts.ignore then -1
    else if name in opts.replace then 3
    else if name in opts.upsert then 2
    else if name in opts.append then 1
    else 3
  }

  /** Two levels do the same to every table, whatever is submitted. */
  ghost predicate SameWrites(a: int, b: int) {
    forall rows, nextId, field, parent, inputs ::
      Written(rows, nextId, field, parent, inputs, a) == Written(rows, nextId, field, parent, inputs, b)
  }

  /** The number the code gives a field does what its documented level does exactly if no list mentions the field. */
  lemma StrategyIsDocumentedExactlyWhen(sch: Schema, opts: WriteOptions, strategy: map<string, int>, name: string)
    requires name != "" && HasRelation(sch, name)
    requires name in opts.ignore ==> At(strategy, name) == 1
    requires name in opts.replace && name !in opts.ignore ==> At(strategy, name) == 2
    requires name in opts.upsert && name !in opts.ignore && name !in opts.replace ==> At(strategy, name) == 3
    requires name in opts.append && name !in opts.ignore && name !in opts.replace && name !in opts.upsert ==> At(strategy, name) == 4
    requires Unlisted(opts, name) ==> At(strategy, name) == 4
    ensures SameWrites(At(strategy, name), DocumentedLevel(opts, name)) <==> Unlisted(opts, name)
  {
    CreatingDiffers(1, -1);
    DeletingDiffers(3, 2);
    UpdatingDiffers(4, 1);
    hide Written, Unlisted;
    assert Unlisted(opts, name) ==> SameWrites(4, 3) by { FromThreeOn(); }
    ListedSomewhere(opts, name);
  }

  lemma ListedSomewhere(opts: WriteOptions, name: string)
    ensures !Unlisted(opts, name) <==> name in opts.ignore || name in opts.replace || name in opts.upsert || name in opts.append
  {
  }

  lemma FromThreeOn()
    ensures SameWrites(4, 3)
  {
  }

  lemma OneNew(values: Record, field: string, parent: Value)
    ensures var inputs := [Input(None, values)];
            ToCreate(inputs, field, parent) == [values[field := parent]] && ToUpdate(inputs, field, parent) == []
  {
    assert [Input(None, values)][1..] == [];
  }

  lemma OneExisting(id: int, values: Record, field: string, parent: Value)
    ensures var inputs, change := [Input(Some(id), values)], Change(id, values[field := parent]);
            ToCreate(inputs, field, parent) == [] && ToUpdate(inputs, field, parent) == [change] && Ids([change]) == {id}
  {
    var inputs, change := [Input(Some(id), values)], Change(id, values[field := parent]);
    assert inputs[1..] == [] && [] + ToCreate(inputs[1..], field, parent) == [];
    assert change in [change];
    forall i ensures i in Ids([change]) <==> i == id {
    }
  }

  /** A new child tells levels apart of which only one creates. */
  lemma CreatingDiffers(a: int, b: int)
    requires a >= 1 > b
    ensures !SameWrites(a, b)
  {
    var bare: Record, rows: Rows := map[], map[];
    var inputs, doc := [Input(None, bare)], bare["f" := Nil];
    OneNew(bare, "f", Nil);
    assert [doc][1..] == [];
    assert Created(rows, 1, [doc]) == rows[1 := doc];
    assert DeleteSet(Children(rows, "f", Nil), Ids([])) == {};
    assert 1 in Written(rows, 1, "f", Nil, inputs, a) && 1 !in Written(rows, 1, "f", Nil, inputs, b);
  }

  /** A stored row that is submitted as a child tells levels apart of which only one updates. */
  lemma UpdatingDiffers(a: int, b: int)
    requires a >= 2 > b
    ensures !SameWrites(a, b)
  {
    var bare: Record := map[];
    var rows: Rows, inputs := map[1 := bare], [Input(Some(1), bare)];
    var change := Change(1, bare["f" := Nil]);
    OneExisting(1, bare, "f", Nil);
    assert [change][1..] == [];
    assert Children(rows, "f", Nil) == {};
    assert DeleteSet({}, {1}) == {};
    assert Updated(rows, [change]) == rows[1 := bare + change.values];
    assert "f" in Written(rows, 2, "f", Nil, inputs, a)[1] && Written(rows, 2, "f", Nil, inputs, b)[1] == bare;
  }

  /** One stored child and one other row that is submitted tell levels apart of which only one deletes. */
  lemma DeletingDiffers(a: int, b: int)
    requires a >= 3 > b >= 2
    ensures !SameWrites(a, b) && !SameWrites(b, a)
  {
    var bare: Record := map[];
    var child := bare["f" := Nil];
    var rows: Rows, inputs := map[1 := child, 5 := bare], [Input(Some(5), bare)];
    OneExisting(5, bare, "f", Nil);
    assert [Change(5, child)][1..] == [];
    assert Children(rows, "f", Nil) == {1};
    assert DeleteSet({1}, {5}) == {5} by { assert 5 in DeleteSet({1}, {5}); }
    assert Updated(rows, [Change(5, child)]) == rows[5 := bare + child];
    assert 5 !in Written(rows, 6, "f", Nil, inputs, a) && 5 in Written(rows, 6, "f", Nil, inputs, b);
  }

  /** The rows after the steps that commit by themselves. */
  ghost function WrittenAtOnce(rows: Rows, nextId: int, field: string, parent: Value, inputs: seq<Input>, level: int): Rows {
    var r1 := if level >= 1 then Created(rows, nextId, ToCreate(inputs, field, parent)) else rows;
    if level >= 3 then Deleted(r1, DeleteSet(Children(rows, field, parent), Ids(ToUpdate(inputs, field, parent)))) else r1
  }

  function PendingChanges(inputs: seq<Input>, field: string, parent: Value, level: int): seq<Change> {
    if level >= 2 then ToUpdate(inputs, field, parent) else []
  }

  /** model.go:1251-1333. */
  method RelatesWriteHasMany(table: Table, field: string, parent: Value, inputs: seq<Input>, strategy: int)
    requires table.Valid()
    modifies table
    ensures table.Valid()
    ensures table.rows == WrittenAtOnce(old(table.rows), old(table.nextId), field, parent, inputs, strategy)
    ensures table.pending == old(table.pending) + PendingChanges(inputs, field, parent, strategy)
  {
    var stored := table.FindByField(field, parent);
    var createDocs, updateDocs := SortInputs(inputs, field, parent);
    var deleteKeys := DeleteKeys(stored, updateDocs);
    ghost var S, E := Children(table.rows, field, parent), Ids(updateDocs);
    SameKeys(stored, S, updateDocs, deleteKeys);
    if strategy >= 1 {
      if |createDocs| > 0 {
        table.Create(createDocs);
      }
    }
    if strategy >= 2 {
      UpdateAll(table, updateDocs);
    }
    if strategy >= 3 {
      if |deleteKeys| > 0 {
        table.Delete(deleteKeys);
      }
    }
  }

  method UpdateAll(table: Table, changes: seq<Change>)
    modifies table`pending
    ensures table.pending == old(table.pending) + changes
  {
    for i := 0 to |changes|
      invariant table.pending == old(table.pending) + changes[..i]
    {
      assert changes[..i + 1] == changes[..i] + [changes[i]];
      table.Update(changes[i]);
    }
    assert changes[..|changes|] == changes;
  }

  /**
   A write and the end of its transaction. With a transaction that its owner commits every step of the level counts;
   without one, as on the way from Create (model.go:1157), the updates are lost.
   */
  method WriteAndEnd(table: Table, field: string, parent: Value, inputs: seq<Input>, strategy: int, committed: bool)
    requires table.Valid() && table.pending == []
    modifies table
    ensures table.pending == []
    ensures table.rows == if committed then Written(old(table.rows), old(table.nextId), field, parent, inputs, strategy)
                          else WrittenAtOnce(old(table.rows), old(table.nextId), field, parent, inputs, strategy)
  {
    RelatesWriteHasMany(table, field, parent, inputs, strategy);
    assert table.pending == PendingChanges(inputs, field, parent, strategy);
    UpdatesAfterDelete(old(table.rows), old(table.nextId), field, parent, inputs, strategy);
    table.EndTransaction(committed);
  }

  /** Updates that become visible last leave the same rows as updates made before the delete. */
  lemma UpdatesAfterDelete(rows: Rows, nextId: int, field: string, parent: Value, inputs: seq<Input>, level: int)
    ensures Updated(WrittenAtOnce(rows, nextId, field, parent, inputs, level), PendingChanges(inputs, field, parent, level))
            == Written(rows, nextId, field, parent, inputs, level)
  {
    if level >= 3 {
      var r1 := Created(rows, nextId, ToCreate(inputs, field, parent));
      UpdatedDeleted(r1, ToUpdate(inputs, field, parent), DeleteSet(Children(rows, field, parent), Ids(ToUpdate(inputs, field, parent))));
    }
  }

  lemma {:induction false} UpdatedDeleted(rows: Rows, changes: seq<Change>, keys: set<int>)
    ensures Updated(Deleted(rows, keys), changes) == Deleted(Updated(rows, changes), keys)
  {
    if changes != [] {
      var c := changes[0];
      var next := if c.id in rows then rows[c.id := rows[c.id] + c.values] else rows;
      UpdatedDeleted(next, changes[1..], keys);
      var gone := Deleted(rows, keys);
      assert (if c.id in gone then gone[c.id := gone[c.id] + c.values] else gone) == Deleted(next, keys);
    }
  }

  lemma SameKeys(stored: seq<int>, S: set<int>, changes: seq<Change>, keys: seq<int>)
    requires forall id :: id in stored <==> id in S
    requires forall k :: k in keys <==> k in Ids(changes) && OneDiffers(stored, k)
    ensures Members(keys) == DeleteSet(S, Ids(changes))
  {
    var D := DeleteSet(S, Ids(changes));
    forall k ensures k in keys <==> k in D {
      if k in keys {
        var s :| s in stored && s != k;
        assert s in S;
      }
      if k in D {
        var s :| s in S && s != k;
        assert s in stored && OneDiffers(stored, k);
      }
    }
  }

  // ----- what the write does -----

  function NewIds(nextId: int, n: nat): (r: set<int>)
    ensures forall i :: i in r <==> nextId <= i < nextId + n
    decreases n
  {
    if n == 0 then {} else {nextId} + NewIds(nextId + 1, n - 1)
  }

  lemma {:induction false} CreatedFacts(rows: Rows, nextId: int, docs: seq<Record>)
    requires forall id :: id in rows ==> id < nextId
    ensures var r := Created(rows, nextId, docs);
            && r.Keys == rows.Keys + NewIds(nextId, |docs|)
            && (forall id :: id in rows ==> r[id] == rows[id])
            && forall id :: id in NewIds(nextId, |docs|) ==> r[id] == docs[id - nextId]
    decreases docs
  {
    if docs != [] {
      CreatedFacts(rows[nextId := docs[0]], nextId + 1, docs[1..]);
      var r := Created(rows, nextId, docs);
      assert NewIds(nextId, |docs|) == {nextId} + NewIds(nextId + 1, |docs| - 1);
      forall id | id in NewIds(nextId, |docs|) ensures r[id] == docs[id - nextId] {
        if id > nextId { assert r[id] == docs[1..][id - nextId - 1]; }
      }
    }
  }

  lemma {:induction false} UpdatedFacts(rows: Rows, changes: seq<Change>, field: string, parent: Value)
    requires forall c :: c in changes ==> FieldOf(c.values, field) == Some(parent)
    ensures var r := Updated(rows, changes);
            && r.Keys == rows.Keys
            && (forall id :: id in rows && id !in Ids(changes) ==> r[id] == rows[id])
            && (forall id :: id in rows && id in Ids(changes) ==> FieldOf(r[id], field) == Some(parent))
            && (forall id :: id in rows && FieldOf(rows[id], field) == Some(parent) ==> FieldOf(r[id], field) == Some(parent))
  {
    if changes != [] {
      var c := changes[0];
      var rows' := if c.id in rows then rows[c.id := rows[c.id] + c.values] else rows;
      UpdatedFacts(rows', changes[1..], field, parent);
      assert changes == [c] + changes[1..];
      assert forall id :: id in Ids(changes) <==> id == c.id || id in Ids(changes[1..]);
      assert rows'.Keys == rows.Keys;
    }
  }

  lemma {:induction false} InputFacts(inputs: seq<Input>, field: string, parent: Value)
    ensures forall c :: c in ToUpdate(inputs, field, parent) ==> FieldOf(c.values, field) == Some(parent)
    ensures forall d :: d in ToCreate(inputs, field, parent) ==> FieldOf(d, field) == Some(parent)
  {
    if inputs != [] { InputFacts(inputs[1..], field, parent); }
  }

  /** After creating and updating, the children are the stored ones, the new ones and the existing ones submitted. */
  lemma UpsertChildren(rows: Rows, nextId: int, field: string, parent: Value, inputs: seq<Input>)
    requires forall id :: id in rows ==> id < nextId
    ensures var changes, creates := ToUpdate(inputs, field, parent), ToCreate(inputs, field, parent);
            var r := Written(rows, nextId, field, parent, inputs, 2);
            && r.Keys == rows.Keys + NewIds(nextId, |creates|)
            && Children(r, field, parent) == Children(rows, field, parent) + NewIds(nextId, |creates|) + (Ids(changes) * r.Keys)
            && (forall id :: id in rows && id !in Ids(changes) ==> r[id] == rows[id])
  {
    hide Written, Created, Updated, ToUpdate, ToCreate, NewIds, Ids;
    UpsertIs(rows, nextId, field, parent, inputs);
    var changes, creates := ToUpdate(inputs, field, parent), ToCreate(inputs, field, parent);
    InputFacts(inputs, field, parent);
    CreatedFacts(rows, nextId, creates);
    var r1 := Created(rows, nextId, creates);
    UpdatedFacts(r1, changes, field, parent);
    forall id | id in NewIds(nextId, |creates|) ensures FieldOf(r1[id], field) == Some(parent) {
      assert r1[id] == creates[id - nextId] && creates[id - nextId] in creates;
    }
  }

  /** Appending adds the new children and leaves every stored row alone. */
  lemma AppendChildren(rows: Rows, nextId: int, field: string, parent: Value, inputs: seq<Input>)
    requires forall id :: id in rows ==> id < nextId
    ensures var fresh' := NewIds(nextId, |ToCreate(inputs, field, parent)|);
            var r := Written(rows, nextId, field, parent, inputs, 1);
            && r.Keys == rows.Keys + fresh'
            && Children(r, field, parent) == Children(rows, field, parent) + fresh'
            && (forall id :: id in rows ==> r[id] == rows[id])
  {
    var creates := ToCreate(inputs, field, parent);
    InputFacts(inputs, field, parent);
    CreatedFacts(rows, nextId, creates);
    var r := Created(rows, nextId, creates);
    forall id | id in NewIds(nextId, |creates|) ensures FieldOf(r[id], field) == Some(parent) {
      assert r[id] == creates[id - nextId] && creates[id - nextId] in creates;
    }
  }

  /** Each level keeps what the level below did: upsert takes over rows as well, replace only removes some. */
  lemma LevelsNest(rows: Rows, nextId: int, field: string, parent: Value, inputs: seq<Input>)
    requires forall id :: id in rows ==> id < nextId
    ensures var appended := Written(rows, nextId, field, parent, inputs, 1);
            var upserted := Written(rows, nextId, field, parent, inputs, 2);
            var replaced := Written(rows, nextId, field, parent, inputs, 3);
            && Children(appended, field, parent) <= Children(upserted, field, parent)
            && upserted.Keys == appended.Keys && replaced.Keys <= upserted.Keys
            && (forall id :: id in replaced ==> replaced[id] == upserted[id])
  {
    AppendChildren(rows, nextId, field, parent, inputs);
    UpsertChildren(rows, nextId, field, parent, inputs);
    var D := DeleteSet(Children(rows, field, parent), Ids(ToUpdate(inputs, field, parent)));
    DeletedFacts(Written(rows, nextId, field, parent, inputs, 2), D);
  }

  // ----- what the written rows hold -----

  /** How many of the first j inputs are new. */
  function NewBefore(inputs: seq<Input>, j: nat): nat
    requires j <= |inputs|
  {
    if j == 0 then 0 else (if inputs[0].id.None? then 1 else 0) + NewBefore(inputs[1..], j - 1)
  }

  lemma {:induction false} CreatedAt(inputs: seq<Input>, field: string, parent: Value, j: nat)
    requires j < |inputs| && inputs[j].id.None?
    ensures var k, docs := NewBefore(inputs, j), ToCreate(inputs, field, parent);
            k < |docs| && docs[k] == inputs[j].values[field := parent]
  {
    if j > 0 { CreatedAt(inputs[1..], field, parent, j - 1); }
  }

  /** Every new input becomes a row of its own, in order: its values and its parent. */
  lemma AppendedValues(rows: Rows, nextId: int, field: string, parent: Value, inputs: seq<Input>, j: nat)
    requires forall id :: id in rows ==> id < nextId
    requires j < |inputs| && inputs[j].id.None?
    ensures var r, id := Written(rows, nextId, field, parent, inputs, 1), nextId + NewBefore(inputs, j);
            id in r && r[id] == inputs[j].values[field := parent]
  {
    CreatedAt(inputs, field, parent, j);
    CreatedFacts(rows, nextId, ToCreate(inputs, field, parent));
  }

  /** Input j names the row and gives the column a value; the parent field always gets the parent. */
  predicate Gives(inputs: seq<Input>, field: string, id: int, c: string, j: nat) {
    j < |inputs| && inputs[j].id == Some(id) && (c == field || c in inputs[j].values)
  }

  predicate GivesLast(inputs: seq<Input>, field: string, id: int, c: string, j: nat) {
    Gives(inputs, field, id, c, j) && forall l :: j < l < |inputs| ==> !Gives(inputs, field, id, c, l)
  }

  /** A cell of a stored row after an upsert: what the last input that gives it a value gives, or what it was. */
  lemma UpsertedValues(rows: Rows, nextId: int, field: string, parent: Value, inputs: seq<Input>, id: int, c: string, j: nat)
    requires (forall i :: i in rows ==> i < nextId) && id in rows
    ensures var r := Written(rows, nextId, field, parent, inputs, 2);
            && id in r
            && (GivesLast(inputs, field, id, c, j) ==>
                  c in r[id] && r[id][c] == if c == field then parent else inputs[j].values[c])
            && ((forall i :: 0 <= i < |inputs| ==> !Gives(inputs, field, id, c, i)) ==> SameCell(r[id], rows[id], c))
  {
    hide Written;
    CreatedFacts(rows, nextId, ToCreate(inputs, field, parent));
    UpdatedCell(Created(rows, nextId, ToCreate(inputs, field, parent)), field, parent, inputs, id, c, j);
    UpsertIs(rows, nextId, field, parent, inputs);
  }

  lemma UpsertIs(rows: Rows, nextId: int, field: string, parent: Value, inputs: seq<Input>)
    ensures Written(rows, nextId, field, parent, inputs, 2)
            == Updated(Created(rows, nextId, ToCreate(inputs, field, parent)), ToUpdate(inputs, field, parent))
  {
  }

  predicate SameCell(r: Record, s: Record, c: string) { (c in r <==> c in s) && (c in r ==> r[c] == s[c]) }

  lemma {:induction false} UpdatedCell(rows: Rows, field: string, parent: Value, inputs: seq<Input>, id: int, c: string, j: nat)
    requires id in rows
    ensures var r := Updated(rows, ToUpdate(inputs, field, parent));
            && id in r
            && (GivesLast(inputs, field, id, c, j) ==>
                  c in r[id] && r[id][c] == if c == field then parent else inputs[j].values[c])
            && ((forall i :: 0 <= i < |inputs| ==> !Gives(inputs, field, id, c, i)) ==> SameCell(r[id], rows[id], c))
    decreases inputs
  {
    if inputs != [] {
      var first, rest := inputs[0], inputs[1..];
      var values := first.values[field := parent];
      var hit := first.id.Some? && first.id.value in rows;
      var rows' := if hit then rows[first.id.value := rows[first.id.value] + values] else rows;
      FirstUpdate(rows, field, parent, inputs);
      hide Updated, ToUpdate;
      UpdatedCell(rows', field, parent, rest, id, c, if j > 0 then j - 1 else 0);
      forall i: nat ensures Gives(rest, field, id, c, i) <==> Gives(inputs, field, id, c, i + 1) {}
      if GivesLast(inputs, field, id, c, j) {
        if j == 0 {
          forall i | 0 <= i < |rest| ensures !Gives(rest, field, id, c, i) { assert !Gives(inputs, field, id, c, i + 1); }
        } else {
          forall l | j - 1 < l < |rest| ensures !Gives(rest, field, id, c, l) { assert !Gives(inputs, field, id, c, l + 1); }
        }
      }
      if forall i :: 0 <= i < |inputs| ==> !Gives(inputs, field, id, c, i) {
        assert !Gives(inputs, field, id, c, 0);
        forall i | 0 <= i < |rest| ensures !Gives(rest, field, id, c, i) { assert !Gives(inputs, field, id, c, i + 1); }
      }
    }
  }

  lemma FirstUpdate(rows: Rows, field: string, parent: Value, inputs: seq<Input>)
    requires inputs != []
    ensures var first := inputs[0];
            var values := first.values[field := parent];
            var hit := first.id.Some? && first.id.value in rows;
            Updated(rows, ToUpdate(inputs, field, parent))
            == Updated(if hit then rows[first.id.value := rows[first.id.value] + values] else rows,
                       ToUpdate(inputs[1..], field, parent))
  {
    var rest := ToUpdate(inputs[1..], field, parent);
    if inputs[0].id.Some? {
      var change := Change(inputs[0].id.value, inputs[0].values[field := parent]);
      assert ([change] + rest)[1..] == rest;
    } else {
      assert [] + rest == rest;
    }
  }

  /** A condition on several different keys holds of no row; on one key, of its row. */
  lemma DeletedFacts(rows: Rows, keys: set<int>)
    ensures IsSingle(keys) ==> Deleted(rows, keys) == rows - keys
    ensures !IsSingle(keys) ==> Deleted(rows, keys) == rows
  {
    if IsSingle(keys) {
      var k := Member(keys);
      assert keys == {k};
      assert Deleted(rows, keys) == rows - keys;
    } else if keys != {} {
      var d, e := TwoMembers(keys);
      assert Deleted(rows, keys) == rows;
    }
  }

  /** Rows that no input names stay as they are, whosever children they are. */
  lemma OthersUntouched(rows: Rows, nextId: int, field: string, parent: Value, inputs: seq<Input>, level: int, id: int)
    requires (forall i :: i in rows ==> i < nextId) && id in rows && id !in Ids(ToUpdate(inputs, field, parent))
    ensures var r := Written(rows, nextId, field, parent, inputs, level);
            id in r && r[id] == rows[id]
  {
    var changes, creates := ToUpdate(inputs, field, parent), ToCreate(inputs, field, parent);
    UpsertChildren(rows, nextId, field, parent, inputs);
    CreatedFacts(rows, nextId, creates);
    DeletedFacts(Written(rows, nextId, field, parent, inputs, 2), DeleteSet(Children(rows, field, parent), Ids(changes)));
  }

  /** When every stored child was submitted, the condition names a single key only for one child and one stranger. */
  lemma SingleDeleteKey(S: set<int>, E: set<int>)
    requires S <= E
    ensures IsSingle(DeleteSet(S, E)) <==> |S| == 1 && |E| == 2
    ensures IsSingle(DeleteSet(S, E)) ==> DeleteSet(S, E) == E - S
  {
    var D := DeleteSet(S, E);
    if |S| == 1 {
      var s := Member(S);
      assert D == E - S;
      assert |E - S| == |E| - 1;
    } else if S != {} {
      var s, t := TwoMembers(S);
      assert s in S && t in S && s != t;
      assert s in D && t in D;
      assert |D| >= |{s, t}| by { Larger({s, t}, D); }
    } else {
      assert D == {};
    }
  }

  lemma Larger(s: set<int>, t: set<int>)
    requires s <= t
    ensures |s| <= |t|
  {
    assert t == s + (t - s);
  }

  /** The submitted keys name a stored child and exactly one other row. */
  predicate OneStranger(S: set<int>, E: set<int>) { |S| == 1 && |E| == 2 }

  /**
   The delete condition is built from submitted keys. It removes the stored children that were not submitted, as the
   design at model.go:53 asks, exactly when there are none of them and it does not hit a submitted row.
   */
  lemma DeleteIsMeantExactlyWhen(rows: Rows, S: set<int>, E: set<int>)
    requires S <= rows.Keys
    ensures rows.Keys - Deleted(rows, DeleteSet(S, E)).Keys == S - E
            <==> S <= E && !(OneStranger(S, E) && E <= rows.Keys)
  {
    var D := DeleteSet(S, E);
    DeletedFacts(rows, D);
    var gone := rows.Keys - Deleted(rows, D).Keys;
    GoneKeys(rows, D);
    hide IsSingle;
    MeantSets(rows.Keys, S, E, gone);
  }

  lemma GoneKeys(rows: Rows, D: set<int>)
    ensures rows.Keys - Deleted(rows, D).Keys == if IsSingle(D) then rows.Keys * D else {}
  {
    DeletedFacts(rows, D);
    if IsSingle(D) { assert (rows - D).Keys == rows.Keys - D; }
  }

  lemma MeantSets(T: set<int>, S: set<int>, E: set<int>, gone: set<int>)
    requires S <= T && gone == if IsSingle(DeleteSet(S, E)) then T * DeleteSet(S, E) else {}
    ensures gone == S - E <==> S <= E && !(OneStranger(S, E) && E <= T)
  {
    assert gone <= E;
    assert gone == S - E <==> S <= E && gone == {};
    if S <= E {
      SingleDeleteKey(S, E);
      if OneStranger(S, E) {
        var d := Member(DeleteSet(S, E));
        assert gone == {} <==> d !in T;
        assert E == S + {d};
      }
    }
  }

  /**
   After a replace write the stored children of the parent are exactly the submitted ones, new and existing, if and
   only if every submitted key exists, every stored child was submitted, and they are not one stored child and one other row.
   */
  lemma ReplaceIsExactWhen(rows: Rows, nextId: int, field: string, parent: Value, inputs: seq<Input>)
    requires forall id :: id in rows ==> id < nextId
    ensures var S, E := Children(rows, field, parent), Ids(ToUpdate(inputs, field, parent));
            var F := NewIds(nextId, |ToCreate(inputs, field, parent)|);
            Children(Written(rows, nextId, field, parent, inputs, 3), field, parent) == E + F
            <==> E <= rows.Keys + F && S <= E && !OneStranger(S, E)
  {
    var S, E := Children(rows, field, parent), Ids(ToUpdate(inputs, field, parent));
    var F := NewIds(nextId, |ToCreate(inputs, field, parent)|);
    UpsertChildren(rows, nextId, field, parent, inputs);
    var r2 := Written(rows, nextId, field, parent, inputs, 2);
    DeletedChildren(r2, field, parent, DeleteSet(S, E));
    hide *;
    ReplaceSets(S, E, F, rows.Keys + F, DeleteSet(S, E));
  }

  /** Deleting stored-minus-submitted instead leaves, after any write, exactly the submitted children that exist. */
  lemma MeantReplaceIsExact(rows: Rows, nextId: int, field: string, parent: Value, inputs: seq<Input>)
    requires forall id :: id in rows ==> id < nextId
    ensures var S, E := Children(rows, field, parent), Ids(ToUpdate(inputs, field, parent));
            var F := NewIds(nextId, |ToCreate(inputs, field, parent)|);
            var r2 := Written(rows, nextId, field, parent, inputs, 2);
            && Children(r2 - (S - E), field, parent) == (E * r2.Keys) + F
            && forall id :: id in rows && id !in S && id !in E ==> id in r2 - (S - E) && (r2 - (S - E))[id] == rows[id]
  {
    UpsertChildren(rows, nextId, field, parent, inputs);
  }

  /**
   Without a committed transaction a replace write takes over no existing row: the children are exactly the submitted
   ones if and only if the submitted keys are just those of the stored children and of new rows, and they are not one
   stored child and one other row.
   */
  lemma ReplaceWithoutCommitIsExactWhen(rows: Rows, nextId: int, field: string, parent: Value, inputs: seq<Input>)
    requires forall id :: id in rows ==> id < nextId
    ensures var S, E := Children(rows, field, parent), Ids(ToUpdate(inputs, field, parent));
            var F := NewIds(nextId, |ToCreate(inputs, field, parent)|);
            Children(WrittenAtOnce(rows, nextId, field, parent, inputs, 3), field, parent) == E + F
            <==> S <= E <= S + F && !OneStranger(S, E)
  {
    var S, E := Children(rows, field, parent), Ids(ToUpdate(inputs, field, parent));
    var F := NewIds(nextId, |ToCreate(inputs, field, parent)|);
    AppendChildren(rows, nextId, field, parent, inputs);
    var r1 := Written(rows, nextId, field, parent, inputs, 1);
    DeletedChildren(r1, field, parent, DeleteSet(S, E));
    hide *;
    AtOnceSets(S, E, F, DeleteSet(S, E));
  }

  lemma AtOnceSets(S: set<int>, E: set<int>, F: set<int>, D: set<int>)
    requires S !! F && D == DeleteSet(S, E)
    ensures (S + F) - (if IsSingle(D) then D else {}) == E + F <==> S <= E <= S + F && !OneStranger(S, E)
  {
    if S <= E { SingleDeleteKey(S, E); }
    if IsSingle(D) {
      var d := Member(D);
      assert d in E + F && d !in (S + F) - D;
    } else {
      assert (S + F) - {} == S + F;
      if S + F == E + F { assert S <= E && E <= S + F; }
      if S <= E && E <= S + F { assert S + F == E + F; }
    }
  }

  lemma DeletedChildren(rows: Rows, field: string, parent: Value, D: set<int>)
    ensures Children(Deleted(rows, D), field, parent) == Children(rows, field, parent) - if IsSingle(D) then D else {}
  {
    DeletedFacts(rows, D);
  }

  lemma ReplaceSets(S: set<int>, E: set<int>, F: set<int>, T: set<int>, D: set<int>)
    requires S <= T && F <= T && S !! F && D == DeleteSet(S, E)
    ensures (S + F + (E * T)) - (if IsSingle(D) then D else {}) == E + F <==> E <= T && S <= E && !OneStranger(S, E)
  {
    var kept := S + F + (E * T);
    if S <= E { SingleDeleteKey(S, E); }
    if IsSingle(D) {
      var d := Member(D);
      assert d in E + F && d !in kept - D;
    } else {
      assert kept - {} == kept;
      if kept == E + F { assert E <= T && S <= E; }
      if E <= T && S <= E { assert kept == E + F; }
    }
  }

  // ----- the delete condition as a filter -----

  function KeyFilter(pk: string, key: Value): Filter { Group(AndOp, [Entries(AndOp, [Entry(pk, "=", key)])]) }

  function KeyFilters(pk: string, keys: seq<Value>): seq<Filter> {
    if keys == [] then [] else [KeyFilter(pk, keys[0])] + KeyFilters(pk, keys[1..])
  }

  lemma KeyFilterMeaning(sch: Schema, pk: string, key: Value, row: Filters.Row)
    ensures Meaning(sch, KeyFilter(pk, key), row) == Some(And3(row(Column(sch, pk), Eq, key), True))
  {
    var es := [Entry(pk, "=", key)];
    var t := row(Column(sch, pk), Eq, key);
    assert es[1..] == [] && EntryMeanings(sch, es, row) == [t];
    var fs := [Entries(AndOp, es)];
    assert fs[1..] == [] && Answers(sch, fs, row) == [Combined(AndOp, [t])];
  }

  /** Or over several keys is a condition that only a row equal to every key meets. */
  lemma {:induction false} DeleteConditionMeaning(sch: Schema, pk: string, keys: seq<Value>, row: Filters.Row)
    requires keys != []
    ensures Meaning(sch, Group(AndOp, KeyFilters(pk, keys)), row) == Some(True)
            <==> forall k :: k in keys ==> row(Column(sch, pk), Eq, k) == True
  {
    KeyAnswers(sch, pk, keys, row);
    var vs := Answers(sch, KeyFilters(pk, keys), row);
    if Combined(AndOp, vs) == True {
      forall k | k in keys ensures row(Column(sch, pk), Eq, k) == True {
        var i :| 0 <= i < |keys| && keys[i] == k;
        assert vs[i] in vs;
      }
    } else {
      assert False in vs || Unknown in vs;
      var i :| 0 <= i < |vs| && vs[i] != True;
      assert keys[i] in keys;
    }
  }

  lemma {:induction false} KeyAnswers(sch: Schema, pk: string, keys: seq<Value>, row: Filters.Row)
    ensures var vs := Answers(sch, KeyFilters(pk, keys), row);
            |vs| == |keys| && forall i :: 0 <= i < |keys| ==> vs[i] == row(Column(sch, pk), Eq, keys[i])
  {
    if keys != [] {
      KeyFilterMeaning(sch, pk, keys[0], row);
      KeyAnswers(sch, pk, keys[1..], row);
      assert KeyFilters(pk, keys)[1..] == KeyFilters(pk, keys[1..]);
    }
  }
}
