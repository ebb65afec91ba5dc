/**
 namespace.go:193-243 as a relation between a registry and what setting its relations makes of it, for any order in
 which the maps are walked. Passes nest, since a pass registers mock bridges and each registration sets all
 relations again; a run may nest at most d deep here.
 */
module RegistryRuns {
  import opened Strings
  import opened Maps
  import opened Schemas
  import opened RelationConfig

  type Snapshot = map<string, Schema>

  // ----- what a pass makes of one field -----

  /** The relation that a pass over a snapshot parses for a field. */
  function ParsedAt(schs: Snapshot, n: string, k: string): Parsed
    requires n in schs && k in schs[n].fields
  {
    var f := schs[n].fields[k];
    if f.relationConfig == "" then NoRelation else RelationOf(f.relationConfig, schs[n].name, f.relation, schs.Keys)
  }

  /** A parsed relation with a native bridge. */
  predicate WantsMock(rel: Relation) { rel.brgIsNative && rel.brgSchema != "" }

  predicate AsksFor(p: Parsed) { p.Parsed? && WantsMock(p.relation) }

  /** The target field of a relation is there. */
  predicate HasTarget(ss: Snapshot, rel: Relation) {
    rel.dstSchema in ss && rel.dstField in ss[rel.dstSchema].fields
  }

  /** Both ends of a bridge are there. */
  predicate HasEnds(schs: Snapshot, n: string, rel: Relation) {
    n in schs && rel.srcField in schs[n].fields && HasTarget(schs, rel)
  }

  function MockField(name: string, typ: string, nativeType: string): Field {
    Field(name, name, typ, "", nativeType, "", None, "", false, false, false, "true")
  }

  /** namespace.go:207-226: a schema for a native bridge, two required fields without relations. */
  function MockSchema(rel: Relation, srcField: Field, dstField: Field): (s: Schema)
    ensures s.name == rel.brgSchema
  {
    Schema(rel.brgSchema, rel.brgSchema,
      map[rel.brgSrcField := MockField(rel.brgSrcField, srcField.typ, srcField.nativeType)]
        [rel.brgDstField := MockField(rel.brgDstField, dstField.typ, dstField.nativeType)])
  }

  function MockAt(schs: Snapshot, n: string, rel: Relation): Schema
    requires HasEnds(schs, n, rel)
  {
    MockSchema(rel, schs[n].fields[rel.srcField], schs[rel.dstSchema].fields[rel.dstField])
  }

  predicate IsScalarName(t: string) { t in {STRING, INTEGER, FLOAT, BOOLEAN, TIME, OBJECT, ARRAY} }

  /** Item types that name no schema are cleared. */
  function Tidy(schs: Snapshot, f: Field): Field {
    if f.itemType != "" && !IsScalarName(f.itemType) && f.itemType !in schs then f.(itemType := "") else f
  }

  function NewField(schs: Snapshot, n: string, k: string): Field
    requires n in schs && k in schs[n].fields
  {
    var f := schs[n].fields[k];
    if f.relationConfig == "" then f
    else
      match ParsedAt(schs, n, k)
      case Parsed(rel) => Tidy(schs, f.(relation := Some(rel)))
      case _ => Tidy(schs, f)
  }

  function NewSchema(schs: Snapshot, n: string): Schema
    requires n in schs
  {
    schs[n].(fields := map k | k in schs[n].fields :: NewField(schs, n, k))
  }

  predicate NeedsUpdate(schs: Snapshot, n: string)
    requires n in schs
  {
    exists k :: k in schs[n].fields && ParsedAt(schs, n, k).Parsed?
  }

  function Updated(schs: Snapshot, n: string, r: Snapshot): Snapshot
    requires n in schs
  {
    if NeedsUpdate(schs, n) then r[n := NewSchema(schs, n)] else r
  }

  // ----- runs -----

  /** It returns with some registry, it panics, or passes nest deeper than they may. */
  datatype Outcome = Returned(schemas: Snapshot) | Stopped | TooDeep

  /** One field of the snapshot, the registry being r. */
  ghost predicate FieldRun(schs: Snapshot, n: string, k: string, r: Snapshot, o: Outcome, d: nat)
    requires n in schs && k in schs[n].fields
    decreases d, 0, 0
  {
    var p := ParsedAt(schs, n, k);
    if p == Panicked then o == Stopped
    else if !AsksFor(p) then o == Returned(r)
    else if !HasEnds(schs, n, p.relation) then o == Stopped
    else if d == 0 then o == TooDeep
    else Pass(r[p.relation.brgSchema := MockAt(schs, n, p.relation)], o, d - 1)
  }

  /** Fields one after the other, until one does not return. */
  ghost predicate FieldsRun(schs: Snapshot, n: string, ks: seq<string>, r: Snapshot, o: Outcome, d: nat)
    requires n in schs && forall k :: k in ks ==> k in schs[n].fields
    decreases d, 1, |ks|
  {
    if ks == [] then o == Returned(r)
    else
      exists mid :: FieldsRun(schs, n, ks[..|ks| - 1], r, mid, d)
                    && if mid.Returned? then FieldRun(schs, n, ks[|ks| - 1], mid.schemas, o, d) else o == mid
  }

  /** All fields of a schema, in some order. */
  ghost predicate AllFieldsRun(schs: Snapshot, n: string, r: Snapshot, o: Outcome, d: nat)
    requires n in schs
    decreases d, 2, 0
  {
    exists ks :: Enumerates(ks, schs[n].fields) && FieldsRun(schs, n, ks, r, o, d)
  }

  /** One schema of the snapshot: it is stored if one of its fields has a relation. */
  ghost predicate SchemaRun(schs: Snapshot, n: string, r: Snapshot, o: Outcome, d: nat)
    requires n in schs
    decreases d, 2, 1
  {
    exists mid :: AllFieldsRun(schs, n, r, mid, d)
                  && o == if mid.Returned? then Returned(Updated(schs, n, mid.schemas)) else mid
  }

  ghost predicate SchemasRun(schs: Snapshot, ns: seq<string>, r: Snapshot, o: Outcome, d: nat)
    requires forall n :: n in ns ==> n in schs
    decreases d, 3, |ns|
  {
    if ns == [] then o == Returned(r)
    else
      exists mid :: SchemasRun(schs, ns[..|ns| - 1], r, mid, d)
                    && if mid.Returned? then SchemaRun(schs, ns[|ns| - 1], mid.schemas, o, d) else o == mid
  }

  /** One pass: the schemas of the snapshot in some order. */
  ghost predicate Pass(ss: Snapshot, o: Outcome, d: nat)
    decreases d, 4, 0
  {
    exists ns :: Enumerates(ns, ss) && SchemasRun(ss, ns, ss, o, d)
  }

  // ----- every order has a run -----

  lemma {:induction false} OrderExists<V>(m: map<string, V>, left: set<string>) returns (ks: seq<string>)
    requires left <= m.Keys
    ensures forall k :: k in ks <==> k in left
    ensures forall i, j :: 0 <= i < j < |ks| ==> ks[i] != ks[j]
    decreases left
  {
    if left == {} {
      ks := [];
    } else {
      var k :| k in left;
      var rest := OrderExists(m, left - {k});
      ks := rest + [k];
      forall i | 0 <= i < |rest| ensures rest[i] != k { assert rest[i] in rest; }
    }
  }

  lemma {:induction false} FieldHasRun(schs: Snapshot, n: string, k: string, r: Snapshot, d: nat) returns (o: Outcome)
    requires n in schs && k in schs[n].fields
    ensures FieldRun(schs, n, k, r, o, d)
    decreases d, 0, 0
  {
    hide ParsedAt, MockAt, HasEnds, Pass;
    var p := ParsedAt(schs, n, k);
    if p == Panicked { o := Stopped; }
    else if !AsksFor(p) { o := Returned(r); }
    else if !HasEnds(schs, n, p.relation) { o := Stopped; }
    else if d == 0 { o := TooDeep; }
    else { o := PassHasRun(r[p.relation.brgSchema := MockAt(schs, n, p.relation)], d - 1); }
  }

  lemma {:induction false} FieldsHaveRun(schs: Snapshot, n: string, ks: seq<string>, r: Snapshot, d: nat) returns (o: Outcome)
    requires n in schs && forall k :: k in ks ==> k in schs[n].fields
    ensures FieldsRun(schs, n, ks, r, o, d)
    decreases d, 1, |ks|
  {
    if ks == [] {
      o := Returned(r);
    } else {
      var mid := FieldsHaveRun(schs, n, ks[..|ks| - 1], r, d);
      o := mid;
      if mid.Returned? { o := FieldHasRun(schs, n, ks[|ks| - 1], mid.schemas, d); }
    }
  }

  lemma {:induction false} SchemaHasRun(schs: Snapshot, n: string, r: Snapshot, d: nat) returns (o: Outcome)
    requires n in schs
    ensures SchemaRun(schs, n, r, o, d)
    decreases d, 2, 1
  {
    var ks := OrderExists(schs[n].fields, schs[n].fields.Keys);
    var mid := FieldsHaveRun(schs, n, ks, r, d);
    assert AllFieldsRun(schs, n, r, mid, d);
    o := if mid.Returned? then Returned(Updated(schs, n, mid.schemas)) else mid;
  }

  lemma {:induction false} SchemasHaveRun(schs: Snapshot, ns: seq<string>, r: Snapshot, d: nat) returns (o: Outcome)
    requires forall n :: n in ns ==> n in schs
    ensures SchemasRun(schs, ns, r, o, d)
    decreases d, 3, |ns|
  {
    if ns == [] {
      o := Returned(r);
    } else {
      var mid := SchemasHaveRun(schs, ns[..|ns| - 1], r, d);
      o := mid;
      if mid.Returned? { o := SchemaHasRun(schs, ns[|ns| - 1], mid.schemas, d); }
    }
  }

  /** Every registry has a run, however deep it may nest. */
  lemma {:induction false} PassHasRun(ss: Snapshot, d: nat) returns (o: Outcome)
    ensures Pass(ss, o, d)
    decreases d, 4, 0
  {
    var ns := OrderExists(ss, ss.Keys);
    o := SchemasHaveRun(ss, ns, ss, d);
  }

  // ----- nesting deeper changes no run that ends -----

  lemma {:induction false} FieldRunDeeper(schs: Snapshot, n: string, k: string, r: Snapshot, o: Outcome, d: nat, e: nat)
    requires n in schs && k in schs[n].fields && FieldRun(schs, n, k, r, o, d) && o != TooDeep && d <= e
    ensures FieldRun(schs, n, k, r, o, e)
    decreases d, 0, 0
  {
    hide ParsedAt, MockAt, HasEnds, Pass;
    var p := ParsedAt(schs, n, k);
    if p != Panicked && AsksFor(p) && HasEnds(schs, n, p.relation) {
      PassDeeper(r[p.relation.brgSchema := MockAt(schs, n, p.relation)], o, d - 1, e - 1);
    }
  }

  lemma {:induction false} FieldsRunDeeper(schs: Snapshot, n: string, ks: seq<string>, r: Snapshot, o: Outcome, d: nat, e: nat)
    requires n in schs && forall k :: k in ks ==> k in schs[n].fields
    requires FieldsRun(schs, n, ks, r, o, d) && o != TooDeep && d <= e
    ensures FieldsRun(schs, n, ks, r, o, e)
    decreases d, 1, |ks|
  {
    if ks != [] {
      var mid :| FieldsRun(schs, n, ks[..|ks| - 1], r, mid, d)
                 && if mid.Returned? then FieldRun(schs, n, ks[|ks| - 1], mid.schemas, o, d) else o == mid;
      FieldsRunDeeper(schs, n, ks[..|ks| - 1], r, mid, d, e);
      if mid.Returned? { FieldRunDeeper(schs, n, ks[|ks| - 1], mid.schemas, o, d, e); }
    }
  }

  lemma {:induction false} SchemaRunDeeper(schs: Snapshot, n: string, r: Snapshot, o: Outcome, d: nat, e: nat)
    requires n in schs && SchemaRun(schs, n, r, o, d) && o != TooDeep && d <= e
    ensures SchemaRun(schs, n, r, o, e)
    decreases d, 2, 1
  {
    hide NeedsUpdate, NewSchema;
    var mid :| AllFieldsRun(schs, n, r, mid, d)
               && o == if mid.Returned? then Returned(Updated(schs, n, mid.schemas)) else mid;
    AllFieldsRunDeeper(schs, n, r, mid, d, e);
  }

  lemma {:induction false} AllFieldsRunDeeper(schs: Snapshot, n: string, r: Snapshot, o: Outcome, d: nat, e: nat)
    requires n in schs && AllFieldsRun(schs, n, r, o, d) && o != TooDeep && d <= e
    ensures AllFieldsRun(schs, n, r, o, e)
    decreases d, 2, 0
  {
    var ks :| Enumerates(ks, schs[n].fields) && FieldsRun(schs, n, ks, r, o, d);
    FieldsRunDeeper(schs, n, ks, r, o, d, e);
  }

  lemma {:induction false} SchemasRunDeeper(schs: Snapshot, ns: seq<string>, r: Snapshot, o: Outcome, d: nat, e: nat)
    requires forall n :: n in ns ==> n in schs
    requires SchemasRun(schs, ns, r, o, d) && o != TooDeep && d <= e
    ensures SchemasRun(schs, ns, r, o, e)
    decreases d, 3, |ns|
  {
    if ns != [] {
      var mid :| SchemasRun(schs, ns[..|ns| - 1], r, mid, d)
                 && if mid.Returned? then SchemaRun(schs, ns[|ns| - 1], mid.schemas, o, d) else o == mid;
      SchemasRunDeeper(schs, ns[..|ns| - 1], r, mid, d, e);
      if mid.Returned? { SchemaRunDeeper(schs, ns[|ns| - 1], mid.schemas, o, d, e); }
    }
  }

  /** A run that ends is a run however much deeper passes might have nested. */
  lemma {:induction false} PassDeeper(ss: Snapshot, o: Outcome, d: nat, e: nat)
    requires Pass(ss, o, d) && o != TooDeep && d <= e
    ensures Pass(ss, o, e)
    decreases d, 4, 0
  {
    var ns :| Enumerates(ns, ss) && SchemasRun(ss, ns, ss, o, d);
    SchemasRunDeeper(ss, ns, ss, o, d, e);
  }

  // ----- loops, one turn at a time -----

  lemma FieldsRunStep(schs: Snapshot, n: string, ks: seq<string>, i: nat, r: Snapshot, mid: Snapshot, o: Outcome, d: nat)
    requires n in schs && (forall k :: k in ks ==> k in schs[n].fields) && i < |ks|
    requires FieldsRun(schs, n, ks[..i], r, Returned(mid), d) && FieldRun(schs, n, ks[i], mid, o, d)
    ensures FieldsRun(schs, n, ks[..i + 1], r, o, d)
    ensures !o.Returned? ==> FieldsRun(schs, n, ks, r, o, d)
  {
    hide FieldRun;
    assert ks[..i + 1][..i] == ks[..i];
    if !o.Returned? { FieldsStop(schs, n, ks, i + 1, r, o, d); }
  }

  lemma SchemasRunStep(schs: Snapshot, ns: seq<string>, i: nat, r: Snapshot, mid: Snapshot, o: Outcome, d: nat)
    requires (forall n :: n in ns ==> n in schs) && i < |ns|
    requires SchemasRun(schs, ns[..i], r, Returned(mid), d) && AllFieldsRun(schs, ns[i], mid, o, d)
    ensures o.Returned? ==> SchemasRun(schs, ns[..i + 1], r, Returned(Updated(schs, ns[i], o.schemas)), d)
    ensures !o.Returned? ==> SchemasRun(schs, ns, r, o, d)
  {
    hide AllFieldsRun, NeedsUpdate, NewSchema;
    assert ns[..i + 1][..i] == ns[..i];
    var next := if o.Returned? then Returned(Updated(schs, ns[i], o.schemas)) else o;
    assert SchemaRun(schs, ns[i], mid, next, d);
    assert SchemasRun(schs, ns[..i + 1], r, next, d);
    if !o.Returned? { SchemasStop(schs, ns, i + 1, r, o, d); }
  }

  lemma {:induction false} FieldsStop(schs: Snapshot, n: string, ks: seq<string>, j: nat, r: Snapshot, o: Outcome, d: nat)
    requires n in schs && (forall k :: k in ks ==> k in schs[n].fields) && j <= |ks|
    requires FieldsRun(schs, n, ks[..j], r, o, d) && !o.Returned?
    ensures FieldsRun(schs, n, ks, r, o, d)
    decreases |ks| - j
  {
    if j == |ks| {
      assert ks[..j] == ks;
    } else {
      assert ks[..j + 1][..j] == ks[..j];
      FieldsStop(schs, n, ks, j + 1, r, o, d);
    }
  }

  lemma {:induction false} SchemasStop(schs: Snapshot, ns: seq<string>, j: nat, r: Snapshot, o: Outcome, d: nat)
    requires (forall n :: n in ns ==> n in schs) && j <= |ns|
    requires SchemasRun(schs, ns[..j], r, o, d) && !o.Returned?
    ensures SchemasRun(schs, ns, r, o, d)
    decreases |ns| - j
  {
    if j == |ns| {
      assert ns[..j] == ns;
    } else {
      assert ns[..j + 1][..j] == ns[..j];
      SchemasStop(schs, ns, j + 1, r, o, d);
    }
  }
}
