/** model.go, relatesQuery: related rows are fetched at once, grouped by key in a map, and handed to their owners. */
module Population {
  import opened Strings
  import opened Filters

  type Record = map<string, Value>

  /** A source element: its fields, and what populate has written into its relation field. */
  datatype Doc = Doc(fields: Record, related: Option<seq<Record>>)

  /** FieldByName, which has nothing to return under a missing name. */
  function FieldOf(row: Record, field: string): Option<Value> { if field in row then Some(row[field]) else None }

  // ----- the nested loop -----

  /** The rows whose field holds the key, in order. */
  function Matches(rows: seq<Record>, field: string, key: Value): seq<Record> {
    if rows == [] then [] else
      (if field in rows[0] && rows[0][field] == key then [rows[0]] else []) + Matches(rows[1..], field, key)
  }

  /** `field $IN values` on a table. */
  function Fetch(table: seq<Record>, field: string, values: set<Value>): (r: seq<Record>)
    ensures forall row :: row in r ==> row in table && field in row && row[field] in values
  {
    if table == [] then [] else
      var v := FieldOf(table[0], field);
      (if v.Some? && v.value in values then [table[0]] else []) + Fetch(table[1..], field, values)
  }

  /** Fetching by all keys at once loses nothing of any one key. */
  lemma {:induction false} FetchKeepsMatches(table: seq<Record>, field: string, values: set<Value>, key: Value)
    requires key in values
    ensures Matches(Fetch(table, field, values), field, key) == Matches(table, field, key)
  {
    if table != [] {
      FetchKeepsMatches(table[1..], field, values, key);
      var v := FieldOf(table[0], field);
      if v.Some? && v.value in values {
        assert ([table[0]] + Fetch(table[1..], field, values))[1..] == Fetch(table[1..], field, values);
      } else {
        assert [] + Fetch(table[1..], field, values) == Fetch(table[1..], field, values);
        assert [] + Matches(table[1..], field, key) == Matches(table[1..], field, key);
      }
    }
  }

  /** The keys of the source elements: what is put behind `$IN`. */
  function SourceValues(docs: seq<Doc>, srcField: string): (r: set<Value>)
    ensures forall i :: 0 <= i < |docs| && srcField in docs[i].fields ==> docs[i].fields[srcField] in r
    ensures forall v :: v in r ==> exists i :: 0 <= i < |docs| && srcField in docs[i].fields && docs[i].fields[srcField] == v
  {
    if docs == [] then {} else
      var rest := SourceValues(docs[1..], srcField);
      if srcField in docs[0].fields then rest + {docs[0].fields[srcField]} else rest
  }

  // ----- the hash join, for any kind of map key -----

  /** The items whose key is k, in order. */
  function Select<K(==), T>(keys: seq<Option<K>>, items: seq<T>, k: K): seq<T>
    requires |keys| == |items|
  {
    if keys == [] then [] else
      (if keys[0] == Some(k) then [items[0]] else []) + Select(keys[1..], items[1..], k)
  }

  lemma {:induction false} SelectSnoc<K, T>(keys: seq<Option<K>>, items: seq<T>, key: Option<K>, item: T, k: K)
    requires |keys| == |items|
    ensures Select(keys + [key], items + [item], k) == Select(keys, items, k) + if key == Some(k) then [item] else []
  {
    if keys == [] {
      assert [] + [key] == [key] && [] + [item] == [item] && [key][1..] == [];
      assert (if key == Some(k) then [item] else []) + [] == [] + if key == Some(k) then [item] else [];
    } else {
      assert (keys + [key])[1..] == keys[1..] + [key] && (items + [item])[1..] == items[1..] + [item];
      SelectSnoc(keys[1..], items[1..], key, item, k);
      Regroup(if keys[0] == Some(k) then [items[0]] else [], Select(keys[1..], items[1..], k),
              if key == Some(k) then [item] else []);
    }
  }

  function GroupAt<K, T>(groups: map<K, seq<T>>, k: K): seq<T> { if k in groups then groups[k] else [] }

  /** model.go:985-998: the items of each key, in fetch order. */
  method Group<K(==), T>(keys: seq<Option<K>>, items: seq<T>) returns (groups: map<K, seq<T>>)
    requires |keys| == |items|
    ensures forall k :: k in groups <==> Some(k) in keys
    ensures forall k :: k in groups ==> groups[k] == Select(keys, items, k)
  {
    groups := map[];
    for i := 0 to |items|
      invariant Grouped(keys[..i], items[..i], groups)
    {
      GroupedStep(keys, items, i, groups);
      if keys[i].Some? {
        var k := keys[i].value;
        ghost var before := groups;
        if k !in groups {
          groups := groups[k := []];
        }
        groups := groups[k := groups[k] + [items[i]]];
        assert groups == before[k := GroupAt(before, k) + [items[i]]];
      }
    }
    assert keys[..|items|] == keys && items[..|items|] == items;
  }

  /** Each key has its group. */
  ghost predicate Grouped<K, T>(keys: seq<Option<K>>, items: seq<T>, groups: map<K, seq<T>>)
    requires |keys| == |items|
  {
    && (forall k :: k in groups ==> Some(k) in keys && groups[k] == Select(keys, items, k))
    && (forall i :: 0 <= i < |keys| && keys[i].Some? ==> keys[i].value in groups)
  }

  lemma {:induction false} SelectNone<K, T>(keys: seq<Option<K>>, items: seq<T>, k: K)
    requires |keys| == |items| && Some(k) !in keys
    ensures Select(keys, items, k) == []
  {
    if keys != [] { SelectNone(keys[1..], items[1..], k); }
  }

  lemma SelectStep<K, T>(keys: seq<Option<K>>, items: seq<T>, i: nat, k: K)
    requires |keys| == |items| && i < |items|
    ensures Select(keys[..i + 1], items[..i + 1], k)
            == if keys[i] == Some(k) then Select(keys[..i], items[..i], k) + [items[i]] else Select(keys[..i], items[..i], k)
  {
    assert keys[..i + 1] == keys[..i] + [keys[i]] && items[..i + 1] == items[..i] + [items[i]];
    SelectSnoc(keys[..i], items[..i], keys[i], items[i], k);
    hide Select;
  }

  lemma GroupedStep<K, T>(keys: seq<Option<K>>, items: seq<T>, i: nat, groups: map<K, seq<T>>)
    requires |keys| == |items| && i < |items| && Grouped(keys[..i], items[..i], groups)
    ensures Grouped(keys[..i + 1], items[..i + 1],
                    if keys[i].None? then groups else groups[keys[i].value := GroupAt(groups, keys[i].value) + [items[i]]])
  {
    hide Select;
    var after := if keys[i].None? then groups else groups[keys[i].value := GroupAt(groups, keys[i].value) + [items[i]]];
    forall k | k in after ensures Some(k) in keys[..i + 1] && after[k] == Select(keys[..i + 1], items[..i + 1], k) {
      SelectStep(keys, items, i, k);
      if k !in groups { SelectNone(keys[..i], items[..i], k); }
      if Some(k) == keys[i] { assert keys[..i + 1][i] == Some(k); } else { StillThere(keys, i, Some(k)); }
    }
    forall j | 0 <= j < i + 1 && keys[j].Some? ensures keys[j].value in after {
      if j < i { assert keys[..i][j].Some?; }
    }
  }

  lemma StillThere<T>(s: seq<T>, i: nat, x: T)
    requires i < |s| && x in s[..i]
    ensures x in s[..i + 1]
  {
    var j :| 0 <= j < i && s[..i][j] == x;
    assert s[..i + 1][j] == x;
  }

  /** model.go:1000-1007. A key without a group is a nil reference, on which Interface panics. */
  method WriteBack<K(==)>(docs: array<Doc>, keys: seq<Option<K>>, groups: map<K, seq<Record>>) returns (ok: bool)
    requires |keys| == docs.Length
    modifies docs
    ensures ok <==> forall i :: 0 <= i < |keys| && keys[i].Some? ==> keys[i].value in groups
    ensures ok ==> forall i :: 0 <= i < docs.Length ==>
              docs[i] == if keys[i].Some? then old(docs[i]).(related := Some(groups[keys[i].value])) else old(docs[i])
    ensures forall i :: 0 <= i < docs.Length && (keys[i].None? || keys[i].value !in groups) ==> docs[i] == old(docs[i])
  {
    for i := 0 to docs.Length
      invariant forall j :: 0 <= j < i && keys[j].Some? ==> keys[j].value in groups
      invariant forall j :: 0 <= j < i ==>
                  docs[j] == if keys[j].Some? then old(docs[j]).(related := Some(groups[keys[j].value])) else old(docs[j])
      invariant forall j :: i <= j < docs.Length ==> docs[j] == old(docs[j])
    {
      if keys[i].None? {
        continue;
      }
      if keys[i].value !in groups {
        return false;
      }
      docs[i] := docs[i].(related := Some(groups[keys[i].value]));
    }
    ok := true;
  }

  // ----- keys compared by value, as meant -----

  function FieldKeys(rows: seq<Record>, field: string): (r: seq<Option<Value>>)
    ensures |r| == |rows|
    ensures forall i :: 0 <= i < |rows| ==> r[i] == FieldOf(rows[i], field)
  {
    seq(|rows|, i requires 0 <= i < |rows| => FieldOf(rows[i], field))
  }

  function DocKeys(docs: seq<Doc>, field: string): (r: seq<Option<Value>>)
    ensures |r| == |docs|
    ensures forall i :: 0 <= i < |docs| ==> r[i] == FieldOf(docs[i].fields, field)
  {
    seq(|docs|, i requires 0 <= i < |docs| => FieldOf(docs[i].fields, field))
  }

  lemma {:induction false} SelectIsMatches(rows: seq<Record>, field: string, key: Value)
    ensures Select(FieldKeys(rows, field), rows, key) == Matches(rows, field, key)
  {
    if rows != [] {
      assert FieldKeys(rows, field)[1..] == FieldKeys(rows[1..], field);
      SelectIsMatches(rows[1..], field, key);
    }
  }

  lemma {:induction false} MatchesSome(rows: seq<Record>, field: string, key: Value)
    ensures Some(key) in FieldKeys(rows, field) <==> Matches(rows, field, key) != []
  {
    if rows != [] {
      MatchesSome(rows[1..], field, key);
      assert FieldKeys(rows, field) == [FieldOf(rows[0], field)] + FieldKeys(rows[1..], field);
    }
  }

  /**
   HAS_MANY with keys compared by value: each source element gets exactly the nested-loop join over the whole
   table, in table order. It still panics, exactly when some element with a key has no related row.
   */
  method PopulateHasMany(docs: array<Doc>, table: seq<Record>, srcField: string, dstField: string) returns (ok: bool)
    modifies docs
    ensures ok <==> forall i :: 0 <= i < docs.Length && srcField in old(docs[i]).fields ==>
                      Matches(table, dstField, old(docs[i]).fields[srcField]) != []
    ensures ok ==> forall i :: 0 <= i < docs.Length ==>
              docs[i] == if srcField in old(docs[i]).fields
                         then old(docs[i]).(related := Some(Matches(table, dstField, old(docs[i]).fields[srcField])))
                         else old(docs[i])
  {
    var srcValues := SourceValues(docs[..], srcField);
    var fetched := Fetch(table, dstField, srcValues);
    var groups := Group(FieldKeys(fetched, dstField), fetched);
    forall k | k in srcValues
      ensures k in groups <==> Matches(table, dstField, k) != []
      ensures k in groups ==> groups[k] == Matches(table, dstField, k)
    {
      FetchKeepsMatches(table, dstField, srcValues, k);
      SelectIsMatches(fetched, dstField, k);
      MatchesSome(fetched, dstField, k);
    }
    ok := WriteBack(docs, DocKeys(docs[..], srcField), groups);
  }

  // ----- REFERENCES_MANY through a native bridge -----

  /** A row of the bridge table: the keys it has for the two ends. */
  datatype Link<K> = Link(src: K, dst: K)

  /** The row that stands for a target id: the last one fetched. */
  function Target(rows: seq<Record>, field: string, id: Value): Option<Record> {
    if rows == [] then None
    else if field in rows[|rows| - 1] && rows[|rows| - 1][field] == id then Some(rows[|rows| - 1])
    else Target(rows[..|rows| - 1], field, id)
  }

  /** The nested loop: the targets of the links of one source, in bridge order, dangling links skipped. */
  function Referenced(links: seq<Link<Value>>, table: seq<Record>, field: string, src: Value): seq<Record> {
    if links == [] then [] else
      var t := Target(table, field, links[0].dst);
      (if links[0].src == src && t.Some? then [t.value] else []) + Referenced(links[1..], table, field, src)
  }

  /** `source $IN sources` on the bridge table. */
  function FetchLinks(links: seq<Link<Value>>, sources: set<Value>): (r: seq<Link<Value>>)
    ensures forall l :: l in r ==> l in links && l.src in sources
  {
    if links == [] then [] else (if links[0].src in sources then [links[0]] else []) + FetchLinks(links[1..], sources)
  }

  lemma {:induction false} FetchLinksKeeps(links: seq<Link<Value>>, sources: set<Value>, table: seq<Record>, field: string, src: Value)
    requires src in sources
    ensures Referenced(FetchLinks(links, sources), table, field, src) == Referenced(links, table, field, src)
  {
    if links != [] {
      FetchLinksKeeps(links[1..], sources, table, field, src);
      if links[0].src in sources {
        assert ([links[0]] + FetchLinks(links[1..], sources))[1..] == FetchLinks(links[1..], sources);
      } else {
        assert [] + FetchLinks(links[1..], sources) == FetchLinks(links[1..], sources);
        assert [] + Referenced(links[1..], table, field, src) == Referenced(links[1..], table, field, src);
      }
    }
  }

  lemma {:induction false} FetchSnoc(table: seq<Record>, row: Record, field: string, values: set<Value>)
    ensures var v := FieldOf(row, field);
            Fetch(table + [row], field, values)
            == Fetch(table, field, values) + if v.Some? && v.value in values then [row] else []
  {
    if table == [] {
      assert [] + [row] == [row] && [row][1..] == [];
    } else {
      assert (table + [row])[1..] == table[1..] + [row];
      FetchSnoc(table[1..], row, field, values);
      var u, v := FieldOf(table[0], field), FieldOf(row, field);
      Regroup(if u.Some? && u.value in values then [table[0]] else [], Fetch(table[1..], field, values),
              if v.Some? && v.value in values then [row] else []);
    }
  }

  lemma FetchNothing(field: string, values: set<Value>)
    ensures Fetch([], field, values) == []
  {
  }

  lemma {:induction false} FetchKeepsTarget(table: seq<Record>, field: string, values: set<Value>, id: Value)
    requires id in values
    ensures Target(Fetch(table, field, values), field, id) == Target(table, field, id)
  {
    hide Fetch;
    if table == [] {
      FetchNothing(field, values);
    } else {
      var most, last := table[..|table| - 1], table[|table| - 1];
      assert table == most + [last];
      FetchSnoc(most, last, field, values);
      FetchKeepsTarget(most, field, values, id);
      var f := Fetch(most, field, values);
      assert (f + [last])[..|f|] == f && f + [] == f;
    }
  }

  /** The last item under a key. */
  function Last<K(==), T>(keys: seq<Option<K>>, items: seq<T>, k: K): Option<T>
    requires |keys| == |items|
  {
    if keys == [] then None
    else if keys[|keys| - 1] == Some(k) then Some(items[|keys| - 1])
    else Last(keys[..|keys| - 1], items[..|keys| - 1], k)
  }

  /** model.go:1030-1038: targets by id, for any kind of map key. */
  method IndexTargets<K(==)>(keys: seq<Option<K>>, rows: seq<Record>) returns (byId: map<K, Record>)
    requires |keys| == |rows|
    ensures forall k :: k in byId ==> Some(k) in keys
    ensures forall k :: Last(keys, rows, k) == if k in byId then Some(byId[k]) else None
  {
    byId := map[];
    for i := 0 to |rows|
      invariant forall k :: k in byId ==> Some(k) in keys[..i]
      invariant forall k :: Last(keys[..i], rows[..i], k) == if k in byId then Some(byId[k]) else None
    {
      assert keys[..i + 1][..i] == keys[..i] && rows[..i + 1][..i] == rows[..i];
      if keys[i].Some? {
        byId := byId[keys[i].value := rows[i]];
      }
    }
    assert keys[..|rows|] == keys && rows[..|rows|] == rows;
  }

  lemma {:induction false} LastIsTarget(rows: seq<Record>, field: string, id: Value)
    ensures Last(FieldKeys(rows, field), rows, id) == Target(rows, field, id)
  {
    if rows != [] {
      var n := |rows| - 1;
      assert FieldKeys(rows, field)[..n] == FieldKeys(rows[..n], field);
      LastIsTarget(rows[..n], field, id);
    }
  }

  function LinkTargets(links: seq<Link<Value>>): (r: set<Value>)
    ensures forall i :: 0 <= i < |links| ==> links[i].dst in r
    ensures forall v :: v in r ==> exists i :: 0 <= i < |links| && links[i].dst == v
  {
    if links == [] then {} else LinkTargets(links[1..]) + {links[0].dst}
  }

  /** The targets of one source, link by link, for any kind of map key. */
  function Linked<K(==)>(links: seq<Link<K>>, byId: map<K, Record>, src: K): seq<Record> {
    if links == [] then [] else
      Linked(links[..|links| - 1], byId, src) + OneLinked(links[|links| - 1], byId, src)
  }

  function OneLinked<K(==)>(link: Link<K>, byId: map<K, Record>, src: K): seq<Record> {
    if link.src == src && link.dst in byId then [byId[link.dst]] else []
  }

  /** model.go:1040-1055. */
  method GroupLinks<K(==)>(links: seq<Link<K>>, byId: map<K, Record>) returns (groups: map<K, seq<Record>>)
    ensures forall src :: GroupAt(groups, src) == Linked(links, byId, src)
    ensures forall src :: src in groups ==> groups[src] != []
  {
    groups := map[];
    for i := 0 to |links|
      invariant forall src :: GroupAt(groups, src) == Linked(links[..i], byId, src)
      invariant forall src :: src in groups ==> groups[src] != []
    {
      assert links[..i + 1][..i] == links[..i];
      var link := links[i];
      if link.dst in byId {
        groups := groups[link.src := GroupAt(groups, link.src) + [byId[link.dst]]];
      }
    }
    assert links[..|links|] == links;
  }

  lemma {:induction false} LinkedCons(link: Link<Value>, links: seq<Link<Value>>, byId: map<Value, Record>, src: Value)
    ensures Linked([link] + links, byId, src) == OneLinked(link, byId, src) + Linked(links, byId, src)
  {
    if links == [] {
      assert [link] + links == [link] && [link][..0] == [];
      assert [] + OneLinked(link, byId, src) == OneLinked(link, byId, src) + [];
    } else {
      var most, last := links[..|links| - 1], links[|links| - 1];
      assert ([link] + links)[..|links|] == [link] + most;
      LinkedCons(link, most, byId, src);
      Regroup(OneLinked(link, byId, src), Linked(most, byId, src), OneLinked(last, byId, src));
    }
  }

  /** With ids compared by value the links lead to the rows of the nested loop. */
  lemma {:induction false} LinkedIsReferenced(links: seq<Link<Value>>, byId: map<Value, Record>, rows: seq<Record>,
                                              field: string, src: Value)
    requires forall id :: Target(rows, field, id) == if id in byId then Some(byId[id]) else None
    ensures Linked(links, byId, src) == Referenced(links, rows, field, src)
  {
    if links != [] {
      assert links == [links[0]] + links[1..];
      LinkedCons(links[0], links[1..], byId, src);
      LinkedIsReferenced(links[1..], byId, rows, field, src);
    }
  }

  /** No link leads anywhere when no target is known under its id. */
  lemma {:induction false} NothingLinked<K>(links: seq<Link<K>>, byId: map<K, Record>, src: K)
    requires forall i :: 0 <= i < |links| ==> links[i].dst !in byId
    ensures Linked(links, byId, src) == []
  {
    if links != [] { NothingLinked(links[..|links| - 1], byId, src); }
  }

  /**
   REFERENCES_MANY through a native bridge with keys compared by value: each source element gets the rows its
   links lead to, in bridge order, dangling links skipped. It panics exactly when an element with a key gets none.
   */
  method PopulateReferencesMany(docs: array<Doc>, bridge: seq<Link<Value>>, table: seq<Record>, srcField: string, dstField: string)
    returns (ok: bool)
    modifies docs
    ensures ok <==> forall i :: 0 <= i < docs.Length && srcField in old(docs[i]).fields ==>
                      Referenced(bridge, table, dstField, old(docs[i]).fields[srcField]) != []
    ensures ok ==> forall i :: 0 <= i < docs.Length ==>
              docs[i] == if srcField in old(docs[i]).fields
                         then old(docs[i]).(related := Some(Referenced(bridge, table, dstField, old(docs[i]).fields[srcField])))
                         else old(docs[i])
  {
    hide Fetch, FetchLinks, Target, Referenced, Linked, Last, SourceValues, LinkTargets;
    var srcValues := SourceValues(docs[..], srcField);
    var links := FetchLinks(bridge, srcValues);
    var ids := LinkTargets(links);
    var rows := Fetch(table, dstField, ids);
    var byId := IndexTargets(FieldKeys(rows, dstField), rows);
    var groups := GroupLinks(links, byId);
    forall id ensures Target(rows, dstField, id) == if id in byId then Some(byId[id]) else None {
      LastIsTarget(rows, dstField, id);
    }
    forall k | k in srcValues
      ensures k in groups <==> Referenced(bridge, table, dstField, k) != []
      ensures k in groups ==> groups[k] == Referenced(bridge, table, dstField, k)
    {
      FetchLinksKeeps(bridge, srcValues, table, dstField, k);
      LinkedIsReferenced(links, byId, rows, dstField, k);
      assert GroupAt(groups, k) == Linked(links, byId, k);
      ReferencedAmong(links, table, dstField, ids, k);
    }
    ok := WriteBack(docs, DocKeys(docs[..], srcField), groups);
  }

  lemma {:induction false} ReferencedAmong(links: seq<Link<Value>>, table: seq<Record>, field: string, ids: set<Value>, src: Value)
    requires forall i :: 0 <= i < |links| ==> links[i].dst in ids
    ensures Referenced(links, Fetch(table, field, ids), field, src) == Referenced(links, table, field, src)
  {
    if links != [] {
      FetchKeepsTarget(table, field, ids, links[0].dst);
      ReferencedAmong(links[1..], table, field, ids, src);
    }
  }

  // ----- keys as the code has them -----

  /** FieldByName returns a new pointer at every call, and it is the pointer that becomes the map key. */
  class Cell {
    const value: Value

    constructor (value: Value)
      ensures this.value == value
    {
      this.value := value;
    }
  }

  method CellOf(row: Record, field: string) returns (c: Option<Cell>)
    ensures c.Some? <==> field in row
    ensures c.Some? ==> fresh(c.value) && c.value.value == row[field]
  {
    c := None;
    if field in row {
      var cell := new Cell(row[field]);
      c := Some(cell);
    }
  }

  method CellsOf(rows: seq<Record>, field: string) returns (keys: seq<Option<Cell>>)
    ensures |keys| == |rows|
    ensures forall i :: 0 <= i < |rows| ==> (keys[i].Some? <==> field in rows[i])
    ensures forall i :: 0 <= i < |rows| && keys[i].Some? ==> fresh(keys[i].value)
  {
    keys := [];
    for i := 0 to |rows|
      invariant |keys| == i
      invariant forall j :: 0 <= j < i ==> (keys[j].Some? <==> field in rows[j])
      invariant forall j :: 0 <= j < i && keys[j].Some? ==> fresh(keys[j].value)
    {
      var c := CellOf(rows[i], field);
      keys := keys + [c];
    }
  }

  function FieldsOf(docs: seq<Doc>): (r: seq<Record>)
    ensures |r| == |docs| && forall i :: 0 <= i < |docs| ==> r[i] == docs[i].fields
  {
    seq(|docs|, i requires 0 <= i < |docs| => docs[i].fields)
  }

  /**
   HAS_MANY as the code has it (model.go:972-1007): no lookup ever finds a group. Nothing is populated, and the
   call panics exactly when some source element has its key.
   */
  method RelatesQueryHasMany(docs: array<Doc>, fetched: seq<Record>, srcField: string, dstField: string) returns (ok: bool)
    modifies docs
    ensures ok <==> forall i :: 0 <= i < docs.Length ==> srcField !in docs[i].fields
    ensures docs[..] == old(docs[..])
  {
    var keys := CellsOf(fetched, dstField);
    var groups := Group(keys, fetched);
    label Grouped:
    var sources := CellsOf(FieldsOf(docs[..]), srcField);
    forall i | 0 <= i < |sources| && sources[i].Some? ensures sources[i].value !in groups {
      assert forall j :: 0 <= j < |keys| && keys[j].Some? ==> old@Grouped(allocated(keys[j].value));
    }
    ok := WriteBack(docs, sources, groups);
  }

  /** A key of the maps of model.go:1030-1056: the pointer that FieldByName returns, or what a bridge row holds. */
  datatype MapKey = Pointer(cell: Cell) | Held(value: Option<Value>)

  function PointerKeys(cells: seq<Option<Cell>>): (r: seq<Option<MapKey>>)
    ensures |r| == |cells|
    ensures forall i :: 0 <= i < |cells| ==> r[i] == if cells[i].Some? then Some(Pointer(cells[i].value)) else None
  {
    seq(|cells|, i requires 0 <= i < |cells| => if cells[i].Some? then Some(Pointer(cells[i].value)) else None)
  }

  function HeldLinks(bridge: seq<Record>, srcField: string, dstField: string): (r: seq<Link<MapKey>>)
    ensures |r| == |bridge|
    ensures forall i :: 0 <= i < |bridge| ==>
              r[i] == Link(Held(FieldOf(bridge[i], srcField)), Held(FieldOf(bridge[i], dstField)))
  {
    seq(|bridge|, i requires 0 <= i < |bridge| =>
      Link(Held(FieldOf(bridge[i], srcField)), Held(FieldOf(bridge[i], dstField))))
  }

  /**
   REFERENCES_MANY through a native bridge as the code has it (model.go:1012-1064): targets are kept under
   pointers and looked up by what the bridge rows hold, so that every link is skipped. Again nothing is populated,
   and the call panics exactly when some source element has its key.
   */
  method RelatesQueryReferencesMany(docs: array<Doc>, bridge: seq<Record>, fetched: seq<Record>, rel: BridgeFields)
    returns (ok: bool)
    modifies docs
    ensures ok <==> forall i :: 0 <= i < docs.Length ==> rel.srcField !in docs[i].fields
    ensures docs[..] == old(docs[..])
  {
    var cells := CellsOf(fetched, rel.dstField);
    var byId := IndexTargets(PointerKeys(cells), fetched);
    var links := HeldLinks(bridge, rel.brgSrcField, rel.brgDstField);
    var groups := GroupLinks(links, byId);
    forall k: MapKey ensures k !in groups {
      NothingLinked(links, byId, k);
      assert GroupAt(groups, k) == [];
    }
    var sources := CellsOf(FieldsOf(docs[..]), rel.srcField);
    ok := WriteBack(docs, PointerKeys(sources), groups);
  }

  /** The field names of a relation with a bridge. */
  datatype BridgeFields = BridgeFields(srcField: string, dstField: string, brgSrcField: string, brgDstField: string)
}
