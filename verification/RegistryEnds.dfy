/** Which runs of setting relations end: every one without a field that asks for ever, and none that meets one. */
module RegistryEnds {
  import opened Strings
  import opened Maps
  import opened RelationConfig
  import opened RegistryRuns
  import opened Registry

  // ----- runs over a valid registry -----

  lemma AskedIsMissing(schs: Snapshot, n: string, k: string)
    requires Valid(schs) && n in schs && k in schs[n].fields && AsksFor(ParsedAt(schs, n, k))
    ensures var b := ParsedAt(schs, n, k).relation.brgSchema;
            FieldBridges(schs[n].fields[k]) == {b} && b !in schs && b in Missing(schs)
  {
    ValidField(schs, n, k);
    FieldParsed(schs, schs[n], schs[n].fields[k]);
    BridgeIsNamed(schs, n, k, ParsedAt(schs, n, k).relation.brgSchema);
  }

  /** A bridge registered for a field of a valid snapshot. */
  lemma BridgeStored(schs: Snapshot, n: string, k: string, r: Snapshot)
    requires Valid(schs) && Extends(schs, r) && Valid(r) && n in schs && k in schs[n].fields
    requires AsksFor(ParsedAt(schs, n, k)) && HasEnds(schs, n, ParsedAt(schs, n, k).relation)
    ensures var rel := ParsedAt(schs, n, k).relation;
            var stored := r[rel.brgSchema := MockAt(schs, n, rel)];
            && Valid(stored) && Extends(schs, stored) && |Missing(stored)| < |Missing(schs)|
            && (Resolves(schs) ==> Resolves(stored))
  {
    var rel := ParsedAt(schs, n, k).relation;
    var mock := MockAt(schs, n, rel);
    AskedIsMissing(schs, n, k);
    ValidField(schs, n, k);
    MockStandsFor(schs, n, k);
    MockIsMock(rel, schs[n].fields[rel.srcField], schs[rel.dstSchema].fields[rel.dstField]);
    hide ParsedAt, MockAt, Valid, Extends, Missing, Resolves, FieldBridges, IsMock, ValidSchema, Stored, StandsFor;
    OneStoredValid(r, mock);
    StoredOne(r, mock);
    MockStored(schs, r, n, k, mock);
    FewerMissing(Missing(Stored(r, [mock])), Missing(schs));
  }

  /** The field parses and its bridge, if it asks for one, has its ends: exactly the fields that resolve. */
  lemma ResolvesExactly(schs: Snapshot, n: string, k: string)
    requires Valid(schs) && n in schs && k in schs[n].fields && schs[n].fields[k].relationConfig != ""
    ensures var p := ParsedAt(schs, n, k);
            FieldResolves(schs, schs[n], schs[n].fields[k]) <==>
              p != Panicked && (AsksFor(p) ==> HasEnds(schs, n, p.relation))
  {
    ValidField(schs, n, k);
    FieldParsed(schs, schs[n], schs[n].fields[k]);
  }

  /** A run that ends in keeping with the snapshot it works on. */
  ghost predicate EndsWell(schs: Snapshot, o: Outcome) {
    && o != TooDeep
    && (o.Returned? ==> Extends(schs, o.schemas) && Valid(o.schemas))
    && (Resolves(schs) ==> o.Returned?)
  }

  lemma {:induction false} FieldEnds(schs: Snapshot, n: string, k: string, r: Snapshot, o: Outcome, d: nat)
    requires Valid(schs) && Extends(schs, r) && Valid(r) && n in schs && k in schs[n].fields
    requires FieldRun(schs, n, k, r, o, d) && |Missing(schs)| <= d
    ensures EndsWell(schs, o)
    ensures o.Returned? && schs[n].fields[k].relationConfig != "" ==> FieldResolves(schs, schs[n], schs[n].fields[k])
    decreases d, 0, 0
  {
    hide ParsedAt, MockAt, Valid, Extends, Missing, HasEnds, FieldResolves, Pass, AsksFor;
    NoConfigAsksNothing(schs, n, k);
    if schs[n].fields[k].relationConfig != "" { ResolvesExactly(schs, n, k); }
    var p := ParsedAt(schs, n, k);
    if AsksFor(p) && HasEnds(schs, n, p.relation) {
      BridgeStored(schs, n, k, r);
      PassEnds(r[p.relation.brgSchema := MockAt(schs, n, p.relation)], o, d - 1);
      if o.Returned? { ExtendsTransitive(schs, r[p.relation.brgSchema := MockAt(schs, n, p.relation)], o.schemas); }
    }
  }

  lemma NoConfigAsksNothing(schs: Snapshot, n: string, k: string)
    requires n in schs && k in schs[n].fields
    ensures schs[n].fields[k].relationConfig == "" ==> ParsedAt(schs, n, k) == NoRelation
    ensures AsksFor(ParsedAt(schs, n, k)) ==> ParsedAt(schs, n, k).Parsed?
  {
  }

  lemma {:induction false} FieldsEnd(schs: Snapshot, n: string, ks: seq<string>, r: Snapshot, o: Outcome, d: nat)
    requires Valid(schs) && Extends(schs, r) && Valid(r) && n in schs && forall k :: k in ks ==> k in schs[n].fields
    requires FieldsRun(schs, n, ks, r, o, d) && |Missing(schs)| <= d
    ensures EndsWell(schs, o)
    ensures o.Returned? ==>
              forall k :: k in ks && schs[n].fields[k].relationConfig != "" ==> FieldResolves(schs, schs[n], schs[n].fields[k])
    decreases d, 1, |ks|
  {
    hide Valid, Extends, Missing, FieldResolves, Resolves, FieldRun;
    if ks != [] {
      var mid :| FieldsRun(schs, n, ks[..|ks| - 1], r, mid, d)
                 && if mid.Returned? then FieldRun(schs, n, ks[|ks| - 1], mid.schemas, o, d) else o == mid;
      FieldsEnd(schs, n, ks[..|ks| - 1], r, mid, d);
      if mid.Returned? { FieldEnds(schs, n, ks[|ks| - 1], mid.schemas, o, d); }
    }
  }

  lemma {:induction false} SchemaEnds(schs: Snapshot, n: string, r: Snapshot, o: Outcome, d: nat)
    requires Valid(schs) && Extends(schs, r) && Valid(r) && n in schs
    requires SchemaRun(schs, n, r, o, d) && |Missing(schs)| <= d
    ensures EndsWell(schs, o)
    ensures o.Returned? ==> SchemaResolves(schs, schs[n])
    decreases d, 2, 0
  {
    hide Valid, Extends, Missing, FieldResolves, Resolves, NeedsUpdate, NewSchema;
    var mid :| AllFieldsRun(schs, n, r, mid, d)
               && o == if mid.Returned? then Returned(Updated(schs, n, mid.schemas)) else mid;
    var ks :| Enumerates(ks, schs[n].fields) && FieldsRun(schs, n, ks, r, mid, d);
    FieldsEnd(schs, n, ks, r, mid, d);
    if mid.Returned? { UpdatedExtends(schs, n, mid.schemas); }
  }

  lemma UpdatedExtends(schs: Snapshot, n: string, r: Snapshot)
    requires Valid(schs) && Extends(schs, r) && Valid(r) && n in schs
    ensures Extends(schs, Updated(schs, n, r)) && Valid(Updated(schs, n, r))
  {
    hide ValidSchema, SameSchema, Extends, NewSchema, NeedsUpdate, ItemsKept, Tidied, HasRelations;
    assert schs[n].name == n;
    hide Valid;
    NewSchemaIsSame(schs, n);
    NewSchemaSettles(schs, n);
    if NeedsUpdate(schs, n) { StoreSame(schs, r, n, NewSchema(schs, n)); }
  }

  lemma NewSchemaIsSame(schs: Snapshot, n: string)
    requires Valid(schs) && n in schs
    ensures SameSchema(schs[n], NewSchema(schs, n)) && ValidSchema(NewSchema(schs, n))
  {
    hide AsksForever, SameField, NewField;
    forall k | k in schs[n].fields
      ensures var g := NewField(schs, n, k); SameField(n, schs[n].fields[k], g) && g.name == k && !AsksForever(n, g)
    {
      ValidField(schs, n, k);
      NewFieldIsSame(schs, n, k);
    }
  }

  lemma NewFieldIsSame(schs: Snapshot, n: string, k: string)
    requires n in schs && schs[n].name == n && k in schs[n].fields && !AsksForever(n, schs[n].fields[k])
    ensures SameField(n, schs[n].fields[k], NewField(schs, n, k)) && !AsksForever(n, NewField(schs, n, k))
    ensures NewField(schs, n, k).name == schs[n].fields[k].name
  {
    var f := schs[n].fields[k];
    SameFieldItself(n, f);
    if f.relationConfig != "" {
      FieldParsed(schs, schs[n], f);
      var p := ParsedAt(schs, n, k);
      var g := if p.Parsed? then f.(relation := Some(p.relation)) else f;
      hide Stable, RelationOf, AsksForever, ParsedAt;
      ItemTypeIsFree(n, f, g);
    }
  }

  lemma {:induction false} SchemasEnd(schs: Snapshot, ns: seq<string>, r: Snapshot, o: Outcome, d: nat)
    requires Valid(schs) && Extends(schs, r) && Valid(r) && forall n :: n in ns ==> n in schs
    requires SchemasRun(schs, ns, r, o, d) && |Missing(schs)| <= d
    ensures EndsWell(schs, o)
    ensures o.Returned? ==> forall n :: n in ns ==> SchemaResolves(schs, schs[n])
    decreases d, 3, |ns|
  {
    hide Valid, Extends, Missing, SchemaResolves, Resolves, SchemaRun;
    if ns != [] {
      var mid :| SchemasRun(schs, ns[..|ns| - 1], r, mid, d)
                 && if mid.Returned? then SchemaRun(schs, ns[|ns| - 1], mid.schemas, o, d) else o == mid;
      SchemasEnd(schs, ns[..|ns| - 1], r, mid, d);
      if mid.Returned? { SchemaEnds(schs, ns[|ns| - 1], mid.schemas, o, d); }
    }
  }

  /**
   Without a field that asks for ever every run ends, nested no deeper than there are bridges missing: it returns
   if everything resolves and panics otherwise.
   */
  lemma {:induction false} PassEnds(ss: Snapshot, o: Outcome, d: nat)
    requires Valid(ss) && Pass(ss, o, d) && |Missing(ss)| <= d
    ensures o != TooDeep && (o.Returned? <==> Resolves(ss))
    ensures o.Returned? ==> Extends(ss, o.schemas) && Valid(o.schemas) && BridgesStand(ss, o.schemas)
    decreases d, 4, 0
  {
    hide Valid, Extends, Missing, SchemaResolves, SchemasRun;
    var ns :| Enumerates(ns, ss) && SchemasRun(ss, ns, ss, o, d);
    ExtendsItself(ss);
    SchemasEnd(ss, ns, ss, o, d);
    if o.Returned? { ExtendsStand(ss, o.schemas); }
  }
}
