/** namespace.go: the schema registry, and the relations it sets after every change. */
module Registry {
  import opened Strings
  import opened Maps
  import opened Schemas
  import opened RelationConfig
  import opened RegistryRuns

  // ----- well-formed registries -----

  /**
   A field set up by hand with a direct relation config and a native bridge: its relation asks for the bridge to
   be registered whether it is known or not, so setting relations would never end.
   */
  predicate AsksForever(srcSchema: string, f: Field) {
    && f.relationConfig != "" && BridgeOf(f.relationConfig) == None
    && Stable(f.relationConfig, srcSchema, f.relation).Parsed?
    && f.relation.Some? && f.relation.value.brgIsNative && f.relation.value.brgSchema != ""
  }

  /** Fields stand under their names, and none asks forever. */
  ghost predicate ValidSchema(s: Schema) {
    forall k :: k in s.fields ==> s.fields[k].name == k && !AsksForever(s.name, s.fields[k])
  }

  ghost predicate Valid(ss: Snapshot) {
    forall n :: n in ss ==> ss[n].name == n && ValidSchema(ss[n])
  }

  // ----- bridges -----

  /** The bridge a field's config names. */
  function FieldBridges(f: Field): set<string> {
    match BridgeOf(f.relationConfig)
    case Some(b) => if b != "" && f.relationConfig != "" then {b} else {}
    case None => {}
  }

  function SchemaBridges(s: Schema): set<string> {
    set k, b | k in s.fields && b in FieldBridges(s.fields[k]) :: b
  }

  /** The names of all bridges the configs mention. */
  function Bridges(ss: Snapshot): set<string> {
    set n, b | n in ss && b in SchemaBridges(ss[n]) :: b
  }

  /** Bridges that are named and not registered. */
  function Missing(ss: Snapshot): set<string> { Bridges(ss) - ss.Keys }

  // ----- what a pass keeps -----

  /** A field as it was, except for its relation and item type; and its config still says the same. */
  ghost predicate SameField(srcSchema: string, f: Field, g: Field) {
    && g == f.(relation := g.relation, itemType := g.itemType)
    && (f.relationConfig == "" ==> g == f)
    && (g.itemType == f.itemType || g.itemType == "")
    && Stable(g.relationConfig, srcSchema, g.relation) == Stable(f.relationConfig, srcSchema, f.relation)
    && (AsksForever(srcSchema, g) ==> AsksForever(srcSchema, f))
  }

  /** The field has the relation its config gives. */
  predicate FieldSet(srcSchema: string, f: Field, g: Field) {
    var t := Stable(f.relationConfig, srcSchema, f.relation);
    f.relationConfig != "" && t.Parsed? ==>
      g.relation.Some? && g.relation.value.(brgIsNative := false) == t.relation
  }

  ghost predicate SchemaSet(s: Schema, t: Schema) {
    forall k :: k in s.fields && k in t.fields ==> FieldSet(s.name, s.fields[k], t.fields[k])
  }

  /** An item type that names neither a type nor a schema. */
  predicate UnknownItem(ss: Snapshot, itemType: string) {
    itemType !in {"string", "int", "float", "bool", "time", "object", "array"} && itemType !in ss
  }

  /** Some field has a config that gives a relation. */
  predicate HasRelations(s: Schema) { exists k :: k in s.fields && !NothingToSet(s.name, s.fields[k]) }

  /** In a schema with relations the fields with configs have lost the item types that were unknown. */
  ghost predicate Tidied(schs: Snapshot, s: Schema, t: Schema) {
    HasRelations(s) ==>
      forall k :: k in s.fields && k in t.fields && s.fields[k].relationConfig != "" && UnknownItem(schs, s.fields[k].itemType) ==>
        t.fields[k].itemType == ""
  }

  /** Known item types stay, and so does all of a schema without relations. */
  ghost predicate ItemsKept(schs: Snapshot, s: Schema, t: Schema) {
    && (!HasRelations(s) ==> t == s)
    && forall k :: k in s.fields && k in t.fields ==>
         t.fields[k].itemType == s.fields[k].itemType || (t.fields[k].itemType == "" && UnknownItem(schs, s.fields[k].itemType))
  }

  ghost predicate Settled(schs: Snapshot, s: Schema, t: Schema) { SchemaSet(s, t) && Tidied(schs, s, t) }

  /** What was set in one registry is set in the other. */
  ghost predicate StaysSet(schs: Snapshot, before: Snapshot, after: Snapshot) {
    forall n :: n in schs && n in before && n in after ==> (Settled(schs, schs[n], before[n]) ==> Settled(schs, schs[n], after[n]))
  }

  ghost predicate AllSet(schs: Snapshot, after: Snapshot) {
    forall n :: n in schs && n in after ==> Settled(schs, schs[n], after[n])
  }

  ghost predicate SameSchema(s: Schema, t: Schema) {
    && t.name == s.name && t.nativeName == s.nativeName && t.fields.Keys == s.fields.Keys
    && forall k :: k in s.fields ==> SameField(s.name, s.fields[k], t.fields[k])
  }

  /** A schema registered for a native bridge: two required fields, no relations. */
  predicate IsMock(s: Schema) {
    && s.nativeName == s.name
    && forall k :: k in s.fields ==> MockField(k, s.fields[k].typ, s.fields[k].nativeType) == s.fields[k]
  }

  /**
   A schema that stands for a native bridge b: one column for each end, of the type of the field at that end, the target
   side taking over if both have one name. Both columns are required, and nothing else is known of them.
   */
  predicate IsBridgeOf(s: Schema, b: string, srcColumn: string, dstColumn: string, src: Field, dst: Field) {
    && s.name == b && s.nativeName == b && s.fields.Keys == {srcColumn, dstColumn}
    && s.fields[dstColumn] == Field(dstColumn, dstColumn, dst.typ, "", dst.nativeType, "", None, "", false, false, false, "true")
    && (srcColumn != dstColumn ==>
          s.fields[srcColumn] == Field(srcColumn, srcColumn, src.typ, "", src.nativeType, "", None, "", false, false, false, "true"))
  }

  /** The schema stands for bridge b as the config of a field asks for it: its columns, and the types of its two ends. */
  ghost predicate StandsFor(ss: Snapshot, n: string, k: string, b: string, s: Schema) {
    n in ss && k in ss[n].fields
    && var f := ss[n].fields[k];
       var t := Stable(f.relationConfig, ss[n].name, f.relation);
       && f.relationConfig != "" && b != "" && BridgeOf(f.relationConfig) == Some(b) && t.Parsed? && t.relation.brgSchema == b
       && t.relation.srcField in ss[n].fields && HasTarget(ss, t.relation)
       && IsBridgeOf(s, b, t.relation.brgSrcField, t.relation.brgDstField, ss[n].fields[t.relation.srcField],
                     ss[t.relation.dstSchema].fields[t.relation.dstField])
  }

  /** Every schema that was not there before stands for a bridge that a field of before asks for. */
  ghost predicate BridgesStand(before: Snapshot, after: Snapshot) {
    forall b :: b in after && b !in before ==> exists n, k :: StandsFor(before, n, k, b, after[b])
  }

  /** Every schema of before is kept, and every other one stands for a bridge. */
  ghost predicate Extends(before: Snapshot, after: Snapshot) {
    && before.Keys <= after.Keys
    && (forall n :: n in before ==> SameSchema(before[n], after[n]) && ItemsKept(before, before[n], after[n]))
    && (forall n :: n in after && n !in before ==> after[n].name == n && IsMock(after[n]) && n in Bridges(before))
    && (Resolves(before) ==> BridgesStand(before, after))
  }

  lemma ExtendsStand(before: Snapshot, after: Snapshot)
    requires Extends(before, after) && Resolves(before)
    ensures BridgesStand(before, after)
  {
  }

  lemma ValidField(ss: Snapshot, n: string, k: string)
    requires Valid(ss) && n in ss && k in ss[n].fields
    ensures ss[n].name == n && ss[n].fields[k].name == k && !AsksForever(n, ss[n].fields[k])
  {
  }

  lemma ExtendsKeys(before: Snapshot, after: Snapshot)
    requires Extends(before, after)
    ensures before.Keys <= after.Keys
  {
  }

  lemma ItemTypeIsFree(srcSchema: string, f: Field, g: Field)
    requires SameField(srcSchema, f, g) && f.relationConfig != "" && !AsksForever(srcSchema, g)
    ensures var h := g.(itemType := "");
            SameField(srcSchema, f, h) && !AsksForever(srcSchema, h) && (FieldSet(srcSchema, f, g) ==> FieldSet(srcSchema, f, h))
  {
  }

  lemma SameFieldItself(srcSchema: string, f: Field)
    ensures SameField(srcSchema, f, f)
  {
  }

  lemma SameConfigSameBridges(f: Field, g: Field)
    requires f.relationConfig == g.relationConfig
    ensures FieldBridges(f) == FieldBridges(g)
  {
  }

  lemma SameSchemaBridges(s: Schema, t: Schema)
    requires SameSchema(s, t)
    ensures SchemaBridges(s) == SchemaBridges(t)
  {
    forall k | k in s.fields ensures FieldBridges(s.fields[k]) == FieldBridges(t.fields[k]) {
      assert SameField(s.name, s.fields[k], t.fields[k]);
      SameConfigSameBridges(s.fields[k], t.fields[k]);
    }
    SameBridges(s.fields, t.fields);
  }

  lemma SameBridges(fs: map<string, Field>, gs: map<string, Field>)
    requires fs.Keys == gs.Keys && forall k :: k in fs ==> FieldBridges(fs[k]) == FieldBridges(gs[k])
    ensures (set k, b | k in fs && b in FieldBridges(fs[k]) :: b) == (set k, b | k in gs && b in FieldBridges(gs[k]) :: b)
  {
    var x, y := set k, b | k in fs && b in FieldBridges(fs[k]) :: b, set k, b | k in gs && b in FieldBridges(gs[k]) :: b;
    forall b ensures b in x <==> b in y {
      if b in x {
        var k :| k in fs && b in FieldBridges(fs[k]);
        assert b in FieldBridges(gs[k]);
      }
      if b in y {
        var k :| k in gs && b in FieldBridges(gs[k]);
        assert b in FieldBridges(fs[k]);
      }
    }
  }

  lemma MockNamesNothing(s: Schema)
    requires IsMock(s)
    ensures SchemaBridges(s) == {}
  {
    forall k | k in s.fields ensures FieldBridges(s.fields[k]) == {} {
      assert MockField(k, s.fields[k].typ, s.fields[k].nativeType) == s.fields[k];
    }
  }

  lemma ExtendsKeepsBridges(before: Snapshot, after: Snapshot)
    requires Extends(before, after)
    ensures Bridges(after) == Bridges(before)
  {
    forall n | n in after
      ensures SchemaBridges(after[n]) == if n in before then SchemaBridges(before[n]) else {}
    {
      if n in before { SameSchemaBridges(before[n], after[n]); } else { MockNamesNothing(after[n]); }
    }
  }

  lemma SameSchemaTransitive(s: Schema, t: Schema, u: Schema)
    requires SameSchema(s, t) && SameSchema(t, u)
    ensures SameSchema(s, u)
  {
  }

  lemma SameKeys(s: Schema, t: Schema)
    requires SameSchema(s, t)
    ensures t.fields.Keys == s.fields.Keys
  {
    hide SameField;
  }

  lemma ItemsKeptTransitive(a: Snapshot, b: Snapshot, s: Schema, t: Schema, u: Schema)
    requires a.Keys <= b.Keys && s.fields.Keys == t.fields.Keys && ItemsKept(a, s, t) && ItemsKept(b, t, u)
    ensures ItemsKept(a, s, u)
  {
    hide NothingToSet;
  }

  lemma ExtendsTransitive(a: Snapshot, b: Snapshot, c: Snapshot)
    requires Extends(a, b) && Extends(b, c)
    ensures Extends(a, c)
  {
    hide Resolves, BridgesStand, SameSchema, ItemsKept, IsMock, Bridges;
    ExtendsKeepsBridges(a, b);
    forall n | n in a ensures SameSchema(a[n], c[n]) && ItemsKept(a, a[n], c[n]) {
      SameSchemaTransitive(a[n], b[n], c[n]);
      SameKeys(a[n], b[n]);
      ItemsKeptTransitive(a, b, a[n], b[n], c[n]);
    }
    forall n | n in c && n !in a ensures c[n].name == n && IsMock(c[n]) && n in Bridges(a) {
      if n in b { MockStays(b[n], c[n]); }
    }
    if Resolves(a) {
      ExtendsKeepsResolves(a, b);
      BridgesStandTransitive(a, b, c);
    }
  }

  lemma BridgesStandTransitive(a: Snapshot, b: Snapshot, c: Snapshot)
    requires Extends(a, b) && Extends(b, c) && Resolves(a) && BridgesStand(a, b) && BridgesStand(b, c)
    ensures BridgesStand(a, c)
  {
    hide Resolves, SameSchema, IsMock, Bridges, StandsFor;
    forall x | x in c && x !in a ensures exists n, k :: StandsFor(a, n, k, x, c[x]) {
      if x in b {
        var n, k :| StandsFor(a, n, k, x, b[x]);
        StandsStill(a, n, k, x, b[x], c[x]);
      } else {
        var n, k :| StandsFor(b, n, k, x, c[x]);
        StandsEarlier(a, b, n, k, x, c[x]);
      }
    }
  }

  lemma StandsStill(ss: Snapshot, n: string, k: string, b: string, s: Schema, t: Schema)
    requires StandsFor(ss, n, k, b, s) && SameSchema(s, t)
    ensures StandsFor(ss, n, k, b, t)
  {
    hide Stable, BridgeOf, AsksForever;
    var f := ss[n].fields[k];
    var rel := Stable(f.relationConfig, ss[n].name, f.relation).relation;
    assert SameField(s.name, s.fields[rel.brgDstField], t.fields[rel.brgDstField]);
    assert SameField(s.name, s.fields[rel.brgSrcField], t.fields[rel.brgSrcField]);
  }

  lemma MockHasNoConfig(s: Schema, k: string)
    requires IsMock(s) && k in s.fields
    ensures s.fields[k].relationConfig == ""
  {
    assert MockField(k, s.fields[k].typ, s.fields[k].nativeType) == s.fields[k];
  }

  /** What stands for a bridge as a field of the grown registry asks for it does so for the registry it grew from. */
  lemma StandsEarlier(a: Snapshot, b: Snapshot, n: string, k: string, x: string, s: Schema)
    requires Extends(a, b) && Resolves(a) && x !in a && StandsFor(b, n, k, x, s)
    ensures StandsFor(a, n, k, x, s)
  {
    hide Stable, BridgeOf, AsksForever, IsMock, Bridges, IsBridgeOf, BridgesStand;
    if n !in a { MockHasNoConfig(b[n], k); }
    var f, g := a[n].fields[k], b[n].fields[k];
    assert SameSchema(a[n], b[n]) && SameField(a[n].name, f, g);
    assert SchemaResolves(a, a[n]) && FieldResolves(a, a[n], f);
    var rel := Stable(f.relationConfig, a[n].name, f.relation).relation;
    assert SameSchema(a[rel.dstSchema], b[rel.dstSchema]);
    var src, dst := a[n].fields[rel.srcField], a[rel.dstSchema].fields[rel.dstField];
    var src', dst' := b[n].fields[rel.srcField], b[rel.dstSchema].fields[rel.dstField];
    assert SameField(a[n].name, src, src') && SameField(a[rel.dstSchema].name, dst, dst');
    BridgeOfTypes(s, x, rel.brgSrcField, rel.brgDstField, src, dst, src', dst');
  }

  lemma BridgeOfTypes(s: Schema, b: string, srcColumn: string, dstColumn: string, src: Field, dst: Field, src': Field, dst': Field)
    requires src.typ == src'.typ && src.nativeType == src'.nativeType && dst.typ == dst'.typ && dst.nativeType == dst'.nativeType
    ensures IsBridgeOf(s, b, srcColumn, dstColumn, src', dst') ==> IsBridgeOf(s, b, srcColumn, dstColumn, src, dst)
  {
  }

  /** A relation that asks for a mock bridge is the one its config gives, and its bridge the one the config names. */
  lemma AskedByConfig(schs: Snapshot, n: string, k: string)
    requires n in schs && k in schs[n].fields && !AsksForever(schs[n].name, schs[n].fields[k]) && AsksFor(ParsedAt(schs, n, k))
    ensures var f, rel := schs[n].fields[k], ParsedAt(schs, n, k).relation;
            && f.relationConfig != "" && rel.brgSchema != "" && BridgeOf(f.relationConfig) == Some(rel.brgSchema)
            && Stable(f.relationConfig, schs[n].name, f.relation) == Parsed(rel.(brgIsNative := false))
  {
    hide Stable, RelationOf, BridgeOf;
    var f := schs[n].fields[k];
    KnownDecidesNativeOnly(f.relationConfig, schs[n].name, f.relation, schs.Keys);
  }

  /** The mock that is registered for a field stands for its bridge. */
  lemma MockStandsFor(schs: Snapshot, n: string, k: string)
    requires n in schs && k in schs[n].fields && !AsksForever(schs[n].name, schs[n].fields[k])
    requires AsksFor(ParsedAt(schs, n, k)) && HasEnds(schs, n, ParsedAt(schs, n, k).relation)
    ensures var rel := ParsedAt(schs, n, k).relation; StandsFor(schs, n, k, rel.brgSchema, MockAt(schs, n, rel))
  {
    hide Stable, RelationOf, BridgeOf, AsksForever, ParsedAt, IsBridgeOf, MockAt;
    var rel := ParsedAt(schs, n, k).relation;
    AskedByConfig(schs, n, k);
    MockIsBridgeOf(schs, n, rel);
  }

  lemma MockIsBridgeOf(schs: Snapshot, n: string, rel: Relation)
    requires HasEnds(schs, n, rel)
    ensures IsBridgeOf(MockAt(schs, n, rel), rel.brgSchema, rel.brgSrcField, rel.brgDstField, schs[n].fields[rel.srcField],
                       schs[rel.dstSchema].fields[rel.dstField])
  {
  }

  lemma MockStays(s: Schema, t: Schema)
    requires IsMock(s) && SameSchema(s, t)
    ensures IsMock(t) && t.name == s.name
  {
    forall k | k in t.fields ensures MockField(k, t.fields[k].typ, t.fields[k].nativeType) == t.fields[k] {
      assert SameField(s.name, s.fields[k], t.fields[k]);
    }
  }

  // ----- when setting relations goes through -----

  /** parseRelation does not panic on the field, and the ends of a bridge to be registered exist. */
  ghost predicate FieldResolves(ss: Snapshot, s: Schema, f: Field) {
    var t := Stable(f.relationConfig, s.name, f.relation);
    && t != Panicked
    && (t.Parsed? && BridgeOf(f.relationConfig).Some? && BridgeOf(f.relationConfig).value !in ss
        && BridgeOf(f.relationConfig).value != "" ==>
          t.relation.srcField in s.fields && HasTarget(ss, t.relation))
  }

  ghost predicate SchemaResolves(ss: Snapshot, s: Schema) {
    forall k :: k in s.fields && s.fields[k].relationConfig != "" ==> FieldResolves(ss, s, s.fields[k])
  }

  ghost predicate Resolves(ss: Snapshot) { forall n :: n in ss ==> SchemaResolves(ss, ss[n]) }

  lemma ExtendsKeepsResolves(before: Snapshot, after: Snapshot)
    requires Extends(before, after) && Resolves(before)
    ensures Resolves(after)
  {
    forall n | n in after ensures SchemaResolves(after, after[n]) {
      if n in before {
        assert SameSchema(before[n], after[n]);
        forall k | k in after[n].fields && after[n].fields[k].relationConfig != ""
          ensures FieldResolves(after, after[n], after[n].fields[k])
        {
          FieldStillResolves(before, after, n, k);
        }
      } else {
        forall k | k in after[n].fields ensures after[n].fields[k].relationConfig == "" {
          assert MockField(k, after[n].fields[k].typ, after[n].fields[k].nativeType) == after[n].fields[k];
        }
      }
    }
  }

  lemma FieldStillResolves(before: Snapshot, after: Snapshot, n: string, k: string)
    requires Extends(before, after) && n in before && SchemaResolves(before, before[n])
    requires k in after[n].fields && after[n].fields[k].relationConfig != ""
    ensures FieldResolves(after, after[n], after[n].fields[k])
  {
    var f, g := before[n].fields[k], after[n].fields[k];
    assert SameSchema(before[n], after[n]) && SameField(before[n].name, f, g);
    assert FieldResolves(before, before[n], f);
    var t := Stable(f.relationConfig, before[n].name, f.relation);
    if t.Parsed? && HasTarget(before, t.relation) {
      assert SameSchema(before[t.relation.dstSchema], after[t.relation.dstSchema]);
    }
  }

  // ----- the registry -----

  class Namespace {
    var schemas: Snapshot

    constructor ()
      ensures schemas == map[]
    {
      schemas := map[];
    }

    /** namespace.go:138-149, with the schemas already parsed. The result is false when setting relations panics. */
    method RegisterSchema(ss: seq<Schema>) returns (ok: bool)
      requires Valid(schemas) && forall s :: s in ss ==> ValidSchema(s)
      modifies this
      ensures var stored := Stored(old(schemas), ss);
              && Extends(stored, schemas) && Valid(schemas)
              && (ok <==> Resolves(stored))
              && (ok ==> schemas.Keys == stored.Keys + Bridges(stored) && AllSet(stored, schemas))
              && (ok ==> BridgesStand(stored, schemas))
              && (ok && Missing(stored) == {} ==> AllParsed(stored, schemas))
              && Pass(stored, if ok then Returned(schemas) else Stopped, |Missing(stored)|)
      decreases Missing(Stored(schemas, ss)), 4
    {
      ghost var before := schemas;
      for i := 0 to |ss|
        invariant schemas == Stored(before, ss[..i])
      {
        schemas := schemas[ss[i].name := ss[i]];
        assert ss[..i + 1][..i] == ss[..i];
      }
      assert ss[..|ss|] == ss;
      StoredValid(before, ss);
      ok := SetRelations();
    }

    /** namespace.go:151-157. A bridge that is still named comes back. */
    method UnregisterSchema(names: seq<string>) returns (ok: bool)
      requires Valid(schemas)
      modifies this
      ensures var left := Without(old(schemas), names);
              && Extends(left, schemas) && Valid(schemas)
              && (ok <==> Resolves(left))
              && (ok ==> schemas.Keys == left.Keys + Bridges(left) && AllSet(left, schemas))
              && (ok ==> BridgesStand(left, schemas))
              && (ok && Missing(left) == {} ==> AllParsed(left, schemas))
              && Pass(left, if ok then Returned(schemas) else Stopped, |Missing(left)|)
    {
      ghost var before := schemas;
      for i := 0 to |names|
        invariant schemas == Without(before, names[..i])
      {
        schemas := schemas - {names[i]};
        assert names[..i + 1][..i] == names[..i];
      }
      assert names[..|names|] == names;
      WithoutValid(before, names);
      ok := SetRelations();
    }

    /** namespace.go:193-243. The loop works on the snapshot taken at its start, however the registry grows. */
    method SetRelations() returns (ok: bool)
      requires Valid(schemas)
      modifies this
      ensures Extends(old(schemas), schemas) && Valid(schemas)
      ensures ok <==> Resolves(old(schemas))
      ensures ok ==> schemas.Keys == old(schemas).Keys + Bridges(old(schemas)) && AllSet(old(schemas), schemas)
      ensures ok ==> BridgesStand(old(schemas), schemas)
      ensures ok && Missing(old(schemas)) == {} ==> AllParsed(old(schemas), schemas)
      ensures Pass(old(schemas), if ok then Returned(schemas) else Stopped, |Missing(old(schemas))|)
      decreases Missing(schemas), 3
    {
      hide BridgeOf, Stable, AsksForever, Settled, SameSchema, ItemsKept, Resolves, SchemasDone, StaysSet, AllSet, SchemasMet,
           AllParsed, NeedsUpdate, NewSchema, AllFieldsRun, SchemasRun, Pass, Missing, Extends, BridgesStand, SeenBridges,
           SchemaResolves, SchemaParsed;
      var schs := schemas;
      var order := Range(schs);
      ok := true;
      ExtendsItself(schs);
      assert order[..0] == [];
      SeenNone(schs);
      SchemasNone(schs, schemas);
      NoSchemaRun(schs);
      SchemasMetNone(schs);
      for i := 0 to |order|
        invariant ok && Extends(schs, schemas) && Valid(schemas)
        invariant SchemasMet(schs, order[..i], schemas)
        invariant SeenBridges(schs, order[..i]) <= schemas.Keys
        invariant SchemasDone(schs, order[..i], schemas)
        invariant SchemasRun(schs, order[..i], schs, Returned(schemas), |Missing(schs)|)
      {
        var s, needUpdate;
        ghost var earlier := schemas;
        ok, s, needUpdate := SetFieldRelations(schs, order[i]);
        SchemasRunStep(schs, order, i, schs, earlier, if ok then Returned(schemas) else Stopped, |Missing(schs)|);
        if !ok {
          RunsAre(schs, order, Stopped, |Missing(schs)|);
          return;
        }
        ghost var was := schemas;
        ExtendsKeys(schs, earlier);
        ExtendsKeys(schs, was);
        if needUpdate {
          schemas := schemas[order[i] := s];
          StoreSame(schs, was, order[i], s);
        }
        SchemasStep(schs, order, i, earlier, was, schemas);
        SchemasMetStep(schs, order, i, earlier, was, s, needUpdate);
        SeenStep(schs, order, i);
      }
      assert order[..|order|] == order;
      SeenAllBridges(schs, order);
      SchemasAll(schs, order, schemas);
      SchemasMetAll(schs, order, schemas);
      ExtendsKeepsBridges(schs, schemas);
      ExtendsByBridges(schs, schemas);
      ExtendsStand(schs, schemas);
      RunsAre(schs, order, Returned(schemas), |Missing(schs)|);
    }

    /** namespace.go:196-238: the fields of one schema of the snapshot. */
    method SetFieldRelations(schs: Snapshot, schemaName: string) returns (ok: bool, s: Schema, needUpdate: bool)
      requires Valid(schemas) && Valid(schs) && Extends(schs, schemas) && schemaName in schs
      modifies this
      ensures Extends(schs, schemas) && Valid(schemas) && old(schemas).Keys <= schemas.Keys
      ensures Resolves(schs) ==> ok
      ensures ok ==> SchemaResolves(schs, schs[schemaName])
      ensures Missing(schs) == {} ==> schemas == old(schemas)
      ensures ok && Missing(schs) == {} ==> SchemaParsed(schs, schs[schemaName], s)
      ensures ok && Missing(schs) == {} && !needUpdate ==> SchemaParsed(schs, schs[schemaName], schs[schemaName])
      ensures ok ==> SameSchema(schs[schemaName], s) && ValidSchema(s)
      ensures ok ==> SchemaBridges(schs[schemaName]) <= schemas.Keys
      ensures ok ==> StaysSet(schs, old(schemas), schemas) && Settled(schs, schs[schemaName], s)
      ensures ok && !needUpdate ==> Settled(schs, schs[schemaName], schemas[schemaName])
      ensures ok && needUpdate ==> ItemsKept(schs, schs[schemaName], s)
      ensures ok ==> s == NewSchema(schs, schemaName) && (needUpdate <==> NeedsUpdate(schs, schemaName))
      ensures AllFieldsRun(schs, schemaName, old(schemas), if ok then Returned(schemas) else Stopped, |Missing(schs)|)
      decreases Missing(schs), 2
    {
      hide BridgeOf, Stable, AsksForever, Extends, Resolves, Missing, StaysSet, FieldsDone, SchemaSet, Tidied, ItemsKept, HasRelations,
           SameField, SameSchema, FieldSet, NothingToSet, FieldBridges, SchemaBridges, SeenFieldBridges, FieldsMet,
           FieldResolves, ParsedSet, SchemaParsed, SchemaResolves, FieldsRun, FieldRun, NewField, ParsedAt, NewSchema, NeedsUpdate;
      StaysSetItself(schs, schemas);
      ghost var s0 := schs[schemaName];
      s, needUpdate, ok := schs[schemaName], false, true;
      var order := Range(s.fields);
      SameSchemaItself(s0);
      FieldsNone(s0, s, needUpdate);
      FieldsNewNone(schs, schemaName);
      NoFieldRun(schs, schemaName, schemas);
      FieldsMetNone(schs, s0, s);
      SeenNoField(s0.fields);
      assert order[..0] == [];
      for i := 0 to |order|
        invariant ok && SameSchema(s0, s) && ValidSchema(s)
        invariant Extends(schs, schemas) && Valid(schemas) && old(schemas).Keys <= schemas.Keys
        invariant SeenFieldBridges(s0.fields, order[..i]) <= schemas.Keys
        invariant StaysSet(schs, old(schemas), schemas)
        invariant FieldsDone(s0, s, order[..i], needUpdate)
        invariant FieldsMet(schs, s0, s, order[..i]) && (Missing(schs) == {} ==> schemas == old(schemas))
        invariant FieldsRun(schs, schemaName, order[..i], old(schemas), Returned(schemas), |Missing(schs)|)
        invariant FieldsNew(schs, schemaName, order[..i], s, needUpdate)
      {
        var fieldName := order[i];
        if schs[schemaName].fields[fieldName].relationConfig != "" {
          var field, update;
          ghost var earlier := schemas;
          ok, field, update := SetFieldRelation(schs, schemaName, fieldName);
          FieldsRunStep(schs, schemaName, order, i, old(schemas), earlier, if ok then Returned(schemas) else Stopped, |Missing(schs)|);
          if !ok {
            return;
          }
          ExtendsKeys(schs, earlier);
          StaysSetTransitive(schs, old(schemas), earlier, schemas);
          FieldReplaced(s0, s, fieldName, field);
          FieldsStep(s0, s, order, i, needUpdate, field, update);
          FieldsMetStep(schs, s0, s, order, i, field);
          FieldsNewStep(schs, schemaName, order, i, s, needUpdate, field, update);
          needUpdate := needUpdate || update;
          s := s.(fields := s.fields[fieldName := field]);
        } else {
          FieldsSkip(s0, s, order, i, needUpdate);
          FieldsNewSkip(schs, schemaName, order, i, s, needUpdate);
          ConfigFreeRun(schs, schemaName, fieldName, schemas, |Missing(schs)|);
          FieldsRunStep(schs, schemaName, order, i, old(schemas), schemas, Returned(schemas), |Missing(schs)|);
          FieldsMetSkip(schs, s0, s, order, i);
          NoConfigNoBridge(s0.fields[fieldName]);
        }
        SeenFieldStep(s0.fields, order, i);
      }
      assert order[..|order|] == order;
      SeenAllFieldBridges(s0, order);
      ExtendsKeys(schs, schemas);
      FieldsAll(s0, s, order, needUpdate, schemas[schemaName]);
      FieldsMetAll(schs, s0, s, order, needUpdate);
      FieldsNewAll(schs, schemaName, order, s, needUpdate);
      NewSchemaSettles(schs, schemaName);
      TidiedVacuously(schs, s0, schemas[schemaName]);
    }

    /** namespace.go:198-236: one field. */
    method SetFieldRelation(schs: Snapshot, schemaName: string, fieldName: string)
      returns (ok: bool, field: Field, needUpdate: bool)
      requires Valid(schemas) && Valid(schs) && Extends(schs, schemas) && schemaName in schs
      requires fieldName in schs[schemaName].fields && schs[schemaName].fields[fieldName].relationConfig != ""
      modifies this
      ensures Extends(schs, schemas) && Valid(schemas) && old(schemas).Keys <= schemas.Keys
      ensures Resolves(schs) ==> ok
      ensures ok ==> FieldResolves(schs, schs[schemaName], schs[schemaName].fields[fieldName])
      ensures Missing(schs) == {} ==> schemas == old(schemas)
      ensures ok && Missing(schs) == {} ==> ParsedSet(schs, schs[schemaName].name, schs[schemaName].fields[fieldName], field)
      ensures var f, src := schs[schemaName].fields[fieldName], schs[schemaName].name;
              ok ==> SameField(src, f, field) && !AsksForever(src, field) && field.name == fieldName
                     && FieldBridges(f) <= schemas.Keys
      ensures ok ==> StaysSet(schs, old(schemas), schemas)
      ensures var f, src := schs[schemaName].fields[fieldName], schs[schemaName].name;
              ok ==> FieldSet(src, f, field) && (!needUpdate ==> NothingToSet(src, f))
      ensures ok ==> field == NewField(schs, schemaName, fieldName) && needUpdate == ParsedAt(schs, schemaName, fieldName).Parsed?
      ensures FieldRun(schs, schemaName, fieldName, old(schemas), if ok then Returned(schemas) else Stopped, |Missing(schs)|)
      decreases Missing(schs), 1
    {
      hide BridgeOf, Stable, AsksForever, RelationOf, Extends, Missing, StaysSet, FieldSet, NothingToSet,
           Pass, MockAt, HasTarget, Valid, FieldBridges;
      StaysSetItself(schs, schemas);
      var s := schs[schemaName];
      field := s.fields[fieldName];
      ok, needUpdate := true, false;
      var parsed := ParseRelation(field.relationConfig, s.name, field.relation, schs.Keys);
      ValidField(schs, schemaName, fieldName);
      FieldParsed(schs, s, field);
      SameFieldItself(s.name, field);
      match parsed {
        case Panicked =>
          return false, field, false;
        case NoRelation =>
        case Parsed(rel) =>
          needUpdate := true;
          field := field.(relation := Some(rel));
          if rel.brgIsNative && rel.brgSchema != "" {
            WantsMissing(schs, schemaName, fieldName, rel.brgSchema);
            ok := RegisterBridge(schs, schemaName, fieldName, rel);
          }
      }
      ExtendsKeys(schs, schemas);
      ItemTypeIsFree(s.name, s.fields[fieldName], field);
      if field.itemType != "" && !IsScalarName(field.itemType) && field.itemType !in schs {
        field := field.(itemType := "");
      }
    }

    /** namespace.go:203-228: the mock schema of a native bridge. */
    method RegisterBridge(schs: Snapshot, schemaName: string, fieldName: string, rel: Relation) returns (ok: bool)
      requires Valid(schemas) && Valid(schs) && Extends(schs, schemas) && schemaName in schs
      requires fieldName in schs[schemaName].fields && FieldBridges(schs[schemaName].fields[fieldName]) == {rel.brgSchema}
      requires rel.brgSchema !in schs && ParsedAt(schs, schemaName, fieldName) == Parsed(rel) && WantsMock(rel)
      modifies this
      ensures Extends(schs, schemas) && Valid(schemas) && old(schemas).Keys <= schemas.Keys
      ensures Resolves(schs) && rel.srcField in schs[schemaName].fields && HasTarget(schs, rel) ==> ok
      ensures ok ==> rel.srcField in schs[schemaName].fields && HasTarget(schs, rel)
      ensures ok ==> rel.brgSchema in schemas && StaysSet(schs, old(schemas), schemas)
      ensures !HasEnds(schs, schemaName, rel) ==> !ok
      ensures HasEnds(schs, schemaName, rel) ==> Missing(schs) != {}
      ensures HasEnds(schs, schemaName, rel) ==>
                Pass(old(schemas)[rel.brgSchema := MockAt(schs, schemaName, rel)],
                     if ok then Returned(schemas) else Stopped, |Missing(schs)| - 1)
      decreases Missing(schs), 0
    {
      hide BridgeOf, Stable, AsksForever, Extends, Resolves, ValidSchema, IsMock, MockSchema, FieldBridges, Missing, ParsedAt,
           StandsFor;
      var s := schs[schemaName];
      if rel.srcField !in s.fields || !HasTarget(schs, rel) {
        return false;
      }
      var mock := MockAt(schs, schemaName, rel);
      MockIsMock(rel, s.fields[rel.srcField], schs[rel.dstSchema].fields[rel.dstField]);
      ghost var stored := Stored(schemas, [mock]);
      ValidField(schs, schemaName, fieldName);
      MockStandsFor(schs, schemaName, fieldName);
      MockStored(schs, schemas, schemaName, fieldName, mock);
      ghost var earlier := schemas;
      ok := RegisterSchema([mock]);
      BridgeRun(schs, earlier, mock, if ok then Returned(schemas) else Stopped);
      ExtendsKeys(stored, schemas);
      ExtendsTransitive(schs, stored, schemas);
      if ok {
        ExtendsKeys(schs, earlier);
        StoredKeeps(schs, earlier, mock);
        SetFromStored(schs, stored, earlier, schemas);
      }
    }
  }

  // ----- the loops are runs -----

  lemma BridgeRun(schs: Snapshot, ss: Snapshot, mock: Schema, o: Outcome)
    requires Missing(Stored(ss, [mock])) < Missing(schs) && o != TooDeep
    requires Pass(Stored(ss, [mock]), o, |Missing(Stored(ss, [mock]))|)
    ensures Missing(schs) != {} && Pass(ss[mock.name := mock], o, |Missing(schs)| - 1)
  {
    hide Missing, Pass, Stored;
    StoredOne(ss, mock);
    FewerMissing(Missing(Stored(ss, [mock])), Missing(schs));
    PassDeeper(ss[mock.name := mock], o, |Missing(Stored(ss, [mock]))|, |Missing(schs)| - 1);
  }

  /** The fields a loop has been through are the new ones, the others as they were. */
  ghost predicate FieldsNew(schs: Snapshot, n: string, ks: seq<string>, s: Schema, needUpdate: bool)
    requires n in schs
  {
    && s == schs[n].(fields := s.fields) && s.fields.Keys == schs[n].fields.Keys
    && (forall k :: k in s.fields ==> s.fields[k] == if k in ks then NewField(schs, n, k) else schs[n].fields[k])
    && (needUpdate <==> exists k :: k in ks && k in schs[n].fields && ParsedAt(schs, n, k).Parsed?)
  }

  lemma NoSchemaRun(schs: Snapshot)
    ensures SchemasRun(schs, [], schs, Returned(schs), |Missing(schs)|)
  {
  }

  lemma RunsAre(schs: Snapshot, ns: seq<string>, o: Outcome, d: nat)
    requires Enumerates(ns, schs) && SchemasRun(schs, ns, schs, o, d)
    ensures Pass(schs, o, d)
  {
  }

  /** A registry that grew by stand-ins for bridges alone, and has all of them. */
  lemma ExtendsByBridges(before: Snapshot, after: Snapshot)
    requires Extends(before, after) && Bridges(before) <= after.Keys
    ensures after.Keys == before.Keys + Bridges(before)
  {
  }

  lemma NoFieldRun(schs: Snapshot, n: string, r: Snapshot)
    requires n in schs
    ensures FieldsRun(schs, n, [], r, Returned(r), |Missing(schs)|)
  {
  }

  lemma ConfigFreeRun(schs: Snapshot, n: string, k: string, r: Snapshot, d: nat)
    requires n in schs && k in schs[n].fields && schs[n].fields[k].relationConfig == ""
    ensures FieldRun(schs, n, k, r, Returned(r), d)
  {
  }

  lemma FieldsNewNone(schs: Snapshot, n: string)
    requires n in schs
    ensures FieldsNew(schs, n, [], schs[n], false)
  {
  }

  lemma FieldsNewStep(schs: Snapshot, n: string, ks: seq<string>, i: nat, s: Schema, needUpdate: bool, field: Field, update: bool)
    requires n in schs && i < |ks| && ks[i] in schs[n].fields && FieldsNew(schs, n, ks[..i], s, needUpdate)
    requires field == NewField(schs, n, ks[i]) && update == ParsedAt(schs, n, ks[i]).Parsed?
    ensures FieldsNew(schs, n, ks[..i + 1], s.(fields := s.fields[ks[i] := field]), needUpdate || update)
  {
    hide NewField, ParsedAt;
    assert ks[..i + 1] == ks[..i] + [ks[i]];
  }

  lemma FieldsNewSkip(schs: Snapshot, n: string, ks: seq<string>, i: nat, s: Schema, needUpdate: bool)
    requires n in schs && i < |ks| && ks[i] in schs[n].fields && FieldsNew(schs, n, ks[..i], s, needUpdate)
    requires schs[n].fields[ks[i]].relationConfig == ""
    ensures FieldsNew(schs, n, ks[..i + 1], s, needUpdate)
  {
    assert NewField(schs, n, ks[i]) == schs[n].fields[ks[i]] && ParsedAt(schs, n, ks[i]) == NoRelation;
    hide NewField, ParsedAt;
    assert ks[..i + 1] == ks[..i] + [ks[i]];
  }

  lemma FieldsNewAll(schs: Snapshot, n: string, ks: seq<string>, s: Schema, needUpdate: bool)
    requires n in schs && Enumerates(ks, schs[n].fields) && FieldsNew(schs, n, ks, s, needUpdate)
    ensures s == NewSchema(schs, n) && (needUpdate <==> NeedsUpdate(schs, n))
  {
    hide NewField, ParsedAt;
    assert s.fields == NewSchema(schs, n).fields;
  }

  // ----- what a pass with nothing missing leaves -----

  /** The relation that parsing under the snapshot gives, native flag included. */
  predicate ParsedSet(schs: Snapshot, srcSchema: string, f: Field, g: Field) {
    var r := RelationOf(f.relationConfig, srcSchema, f.relation, schs.Keys);
    f.relationConfig != "" && r.Parsed? ==> g.relation == Some(r.relation)
  }

  ghost predicate SchemaParsed(schs: Snapshot, s: Schema, t: Schema) {
    forall k :: k in s.fields && k in t.fields ==> ParsedSet(schs, s.name, s.fields[k], t.fields[k])
  }

  ghost predicate AllParsed(schs: Snapshot, after: Snapshot) {
    forall n :: n in schs && n in after ==> SchemaParsed(schs, schs[n], after[n])
  }

  /** Whether a config that gives a relation leaves its bridge native, after a pass with nothing missing. */
  predicate StaysNative(schs: Snapshot, f: Field) {
    match BridgeOf(f.relationConfig)
    case Some(b) => b == "" && b !in schs
    case None => f.relation.Some? && f.relation.value.brgIsNative
  }

  /**
   Once every bridge is registered, a further pass leaves a relation marked as native exactly when its config names
   the empty bridge and no schema has that name, or names none and the relation was marked before.
   */
  lemma NativeAfterPassExactlyWhen(schs: Snapshot, after: Snapshot, n: string, k: string)
    requires Missing(schs) == {} && AllParsed(schs, after) && n in schs && n in after && k in schs[n].fields && k in after[n].fields
    requires schs[n].fields[k].relationConfig != ""
    requires Stable(schs[n].fields[k].relationConfig, schs[n].name, schs[n].fields[k].relation).Parsed?
    ensures after[n].fields[k].relation.Some?
    ensures after[n].fields[k].relation.value.brgIsNative <==> StaysNative(schs, schs[n].fields[k])
  {
    var f := schs[n].fields[k];
    KnownDecidesNativeOnly(f.relationConfig, schs[n].name, f.relation, schs.Keys);
    assert SchemaParsed(schs, schs[n], after[n]) && ParsedSet(schs, schs[n].name, f, after[n].fields[k]);
    hide BridgeOf, RelationOf, Stable;
    if BridgeOf(f.relationConfig).Some? && BridgeOf(f.relationConfig).value != "" {
      BridgeIsNamed(schs, n, k, BridgeOf(f.relationConfig).value);
    }
  }

  lemma BridgeIsNamed(schs: Snapshot, n: string, k: string, b: string)
    requires n in schs && k in schs[n].fields && FieldBridges(schs[n].fields[k]) == {b}
    ensures b in Bridges(schs)
  {
    assert b in SchemaBridges(schs[n]);
  }

  lemma WantsMissing(schs: Snapshot, n: string, k: string, b: string)
    requires n in schs && k in schs[n].fields && FieldBridges(schs[n].fields[k]) == {b} && b !in schs
    ensures Missing(schs) != {}
  {
    BridgeIsNamed(schs, n, k, b);
    assert b in Missing(schs);
  }

  /** The fields a loop has been through resolve, and have the parsed relations if nothing was missing. */
  ghost predicate FieldsMet(schs: Snapshot, s0: Schema, s: Schema, ks: seq<string>) {
    forall k :: k in ks && k in s0.fields && k in s.fields ==>
      && (s0.fields[k].relationConfig != "" ==> FieldResolves(schs, s0, s0.fields[k]))
      && (Missing(schs) == {} ==> ParsedSet(schs, s0.name, s0.fields[k], s.fields[k]))
  }

  lemma FieldsMetNone(schs: Snapshot, s0: Schema, s: Schema)
    ensures FieldsMet(schs, s0, s, [])
  {
  }

  lemma FieldsMetStep(schs: Snapshot, s0: Schema, s: Schema, ks: seq<string>, i: nat, field: Field)
    requires i < |ks| && FieldsMet(schs, s0, s, ks[..i]) && ks[i] in s0.fields
    requires FieldResolves(schs, s0, s0.fields[ks[i]])
    requires Missing(schs) == {} ==> ParsedSet(schs, s0.name, s0.fields[ks[i]], field)
    ensures FieldsMet(schs, s0, s.(fields := s.fields[ks[i] := field]), ks[..i + 1])
  {
    hide FieldResolves, ParsedSet, Missing;
    assert ks[..i + 1] == ks[..i] + [ks[i]];
  }

  lemma FieldsMetSkip(schs: Snapshot, s0: Schema, s: Schema, ks: seq<string>, i: nat)
    requires i < |ks| && FieldsMet(schs, s0, s, ks[..i])
    requires ks[i] in s0.fields && s0.fields[ks[i]].relationConfig == ""
    ensures FieldsMet(schs, s0, s, ks[..i + 1])
  {
    hide FieldResolves, Missing;
    assert ks[..i + 1] == ks[..i] + [ks[i]];
  }

  lemma FieldsMetAll(schs: Snapshot, s0: Schema, s: Schema, ks: seq<string>, needUpdate: bool)
    requires Enumerates(ks, s0.fields) && SameSchema(s0, s) && FieldsMet(schs, s0, s, ks) && FieldsDone(s0, s, ks, needUpdate)
    ensures SchemaResolves(schs, s0)
    ensures Missing(schs) == {} ==> SchemaParsed(schs, s0, s) && (!needUpdate ==> SchemaParsed(schs, s0, s0))
  {
    hide FieldResolves, Missing, SameField;
    forall k | k in s0.fields && !needUpdate ensures ParsedSet(schs, s0.name, s0.fields[k], s0.fields[k]) {
      KnownDecidesNativeOnly(s0.fields[k].relationConfig, s0.name, s0.fields[k].relation, schs.Keys);
      assert NothingToSet(s0.name, s0.fields[k]);
    }
  }

  /** The same for the schemas of a pass. */
  ghost predicate SchemasMet(schs: Snapshot, ns: seq<string>, ss: Snapshot) {
    && (forall n :: n in ns && n in schs ==> SchemaResolves(schs, schs[n]))
    && (Missing(schs) == {} ==>
          && schs.Keys <= ss.Keys
          && (forall n :: n in ns && n in schs ==> SchemaParsed(schs, schs[n], ss[n]))
          && (forall n :: n in schs && n !in ns ==> ss[n] == schs[n]))
  }

  lemma SchemasMetNone(schs: Snapshot)
    ensures SchemasMet(schs, [], schs)
  {
  }

  lemma SchemasMetStep(schs: Snapshot, ns: seq<string>, i: nat, earlier: Snapshot, was: Snapshot, s: Schema, needUpdate: bool)
    requires i < |ns| && Enumerates(ns, schs) && SchemasMet(schs, ns[..i], earlier) && SchemaResolves(schs, schs[ns[i]])
    requires Missing(schs) == {} ==> was == earlier
    requires Missing(schs) == {} ==> SchemaParsed(schs, schs[ns[i]], s)
    requires Missing(schs) == {} && !needUpdate ==> SchemaParsed(schs, schs[ns[i]], schs[ns[i]])
    ensures SchemasMet(schs, ns[..i + 1], if needUpdate then was[ns[i] := s] else was)
  {
    hide SchemaResolves, SchemaParsed, Missing;
    assert ns[..i + 1] == ns[..i] + [ns[i]];
    assert ns[i] !in ns[..i];
  }

  lemma SchemasMetAll(schs: Snapshot, ns: seq<string>, ss: Snapshot)
    requires Enumerates(ns, schs) && SchemasMet(schs, ns, ss)
    ensures Resolves(schs) && (Missing(schs) == {} ==> AllParsed(schs, ss))
  {
    hide SchemaResolves, SchemaParsed, Missing;
  }

  lemma MockIsMock(rel: Relation, srcField: Field, dstField: Field)
    ensures var s := MockSchema(rel, srcField, dstField); IsMock(s) && ValidSchema(s)
  {
  }

  lemma FewerMissing(a: set<string>, b: set<string>)
    requires a < b
    ensures |a| < |b|
  {
    var x :| x in b && x !in a;
    assert b == a + (b - a);
    assert x in b - a;
  }

  lemma FieldReplaced(s0: Schema, s: Schema, k: string, field: Field)
    requires SameSchema(s0, s) && ValidSchema(s) && k in s0.fields
    requires SameField(s0.name, s0.fields[k], field) && !AsksForever(s0.name, field) && field.name == k
    ensures var t := s.(fields := s.fields[k := field]); SameSchema(s0, t) && ValidSchema(t)
  {
  }

  /** The bridges of the fields a loop has been through. */
  function SeenFieldBridges(fields: map<string, Field>, ks: seq<string>): (r: set<string>)
    requires forall k :: k in ks ==> k in fields
    ensures forall k :: k in ks ==> FieldBridges(fields[k]) <= r
  {
    if ks == [] then {} else
      SeenFieldBridges(fields, ks[..|ks| - 1]) + FieldBridges(fields[ks[|ks| - 1]])
  }

  function SeenBridges(ss: Snapshot, ns: seq<string>): (r: set<string>)
    requires forall n :: n in ns ==> n in ss
    ensures forall n :: n in ns ==> SchemaBridges(ss[n]) <= r
  {
    if ns == [] then {} else SeenBridges(ss, ns[..|ns| - 1]) + SchemaBridges(ss[ns[|ns| - 1]])
  }

  lemma SeenNone(ss: Snapshot)
    ensures SeenBridges(ss, []) == {}
  {
  }

  lemma SeenStep(ss: Snapshot, ns: seq<string>, i: nat)
    requires i < |ns| && forall n :: n in ns ==> n in ss
    ensures SeenBridges(ss, ns[..i + 1]) == SeenBridges(ss, ns[..i]) + SchemaBridges(ss[ns[i]])
  {
    assert ns[..i + 1][..i] == ns[..i];
  }

  lemma SeenNoField(fields: map<string, Field>)
    ensures SeenFieldBridges(fields, []) == {}
  {
  }

  lemma SeenFieldStep(fields: map<string, Field>, ks: seq<string>, i: nat)
    requires i < |ks| && forall k :: k in ks ==> k in fields
    ensures SeenFieldBridges(fields, ks[..i + 1]) == SeenFieldBridges(fields, ks[..i]) + FieldBridges(fields[ks[i]])
  {
    assert ks[..i + 1][..i] == ks[..i];
  }

  lemma SeenAllFieldBridges(s: Schema, ks: seq<string>)
    requires Enumerates(ks, s.fields)
    ensures SchemaBridges(s) <= SeenFieldBridges(s.fields, ks)
  {
  }

  lemma SeenAllBridges(ss: Snapshot, ns: seq<string>)
    requires Enumerates(ns, ss)
    ensures Bridges(ss) <= SeenBridges(ss, ns)
  {
  }

  predicate NothingToSet(srcSchema: string, f: Field) {
    f.relationConfig == "" || !Stable(f.relationConfig, srcSchema, f.relation).Parsed?
  }

  lemma NothingSet(s: Schema, t: Schema)
    requires forall k :: k in s.fields ==> NothingToSet(s.name, s.fields[k])
    ensures SchemaSet(s, t)
  {
    forall k | k in s.fields && k in t.fields ensures FieldSet(s.name, s.fields[k], t.fields[k]) {
      assert NothingToSet(s.name, s.fields[k]);
    }
  }

  /** The fields a loop has been through have their relations; without an update none of them has one to set. */
  ghost predicate FieldsDone(s0: Schema, s: Schema, ks: seq<string>, needUpdate: bool) {
    forall k :: k in ks && k in s0.fields && k in s.fields ==>
      FieldSet(s0.name, s0.fields[k], s.fields[k]) && (!needUpdate ==> NothingToSet(s0.name, s0.fields[k]))
  }

  lemma NoConfigNoBridge(f: Field)
    requires f.relationConfig == ""
    ensures FieldBridges(f) == {}
  {
  }

  lemma FieldsNone(s0: Schema, s: Schema, needUpdate: bool)
    ensures FieldsDone(s0, s, [], needUpdate)
  {
  }

  lemma FieldsStep(s0: Schema, s: Schema, ks: seq<string>, i: nat, needUpdate: bool, field: Field, update: bool)
    requires i < |ks| && FieldsDone(s0, s, ks[..i], needUpdate) && ks[i] in s0.fields
    requires FieldSet(s0.name, s0.fields[ks[i]], field) && (!update ==> NothingToSet(s0.name, s0.fields[ks[i]]))
    ensures FieldsDone(s0, s.(fields := s.fields[ks[i] := field]), ks[..i + 1], needUpdate || update)
  {
    assert ks[..i + 1] == ks[..i] + [ks[i]];
  }

  lemma FieldsSkip(s0: Schema, s: Schema, ks: seq<string>, i: nat, needUpdate: bool)
    requires i < |ks| && FieldsDone(s0, s, ks[..i], needUpdate)
    requires ks[i] in s0.fields && s0.fields[ks[i]].relationConfig == ""
    ensures FieldsDone(s0, s, ks[..i + 1], needUpdate)
  {
    assert ks[..i + 1] == ks[..i] + [ks[i]];
  }

  lemma FieldsAll(s0: Schema, s: Schema, ks: seq<string>, needUpdate: bool, t: Schema)
    requires Enumerates(ks, s0.fields) && FieldsDone(s0, s, ks, needUpdate) && SameSchema(s0, s)
    ensures SchemaSet(s0, s)
    ensures !needUpdate ==> SchemaSet(s0, t)
  {
    if !needUpdate { NothingSet(s0, t); }
  }

  ghost predicate SchemasDone(schs: Snapshot, ns: seq<string>, ss: Snapshot) {
    forall n :: n in ns && n in schs && n in ss ==> Settled(schs, schs[n], ss[n])
  }

  lemma SchemasNone(schs: Snapshot, ss: Snapshot)
    ensures SchemasDone(schs, [], ss)
  {
  }

  lemma SchemasStep(schs: Snapshot, ns: seq<string>, i: nat, before: Snapshot, during: Snapshot, after: Snapshot)
    requires i < |ns| && SchemasDone(schs, ns[..i], before) && StaysSet(schs, before, during)
    requires schs.Keys <= before.Keys && schs.Keys <= during.Keys && Enumerates(ns, schs)
    requires ns[i] in after && Settled(schs, schs[ns[i]], after[ns[i]])
    requires forall n :: n in during && n != ns[i] ==> n in after && after[n] == during[n]
    ensures SchemasDone(schs, ns[..i + 1], after)
  {
    assert ns[..i + 1] == ns[..i] + [ns[i]];
    forall n | n in ns[..i + 1] && n in schs && n in after ensures Settled(schs, schs[n], after[n]) {
      if n != ns[i] { assert Settled(schs, schs[n], before[n]) && Settled(schs, schs[n], during[n]); }
    }
  }

  lemma SchemasAll(schs: Snapshot, ns: seq<string>, ss: Snapshot)
    requires Enumerates(ns, schs) && SchemasDone(schs, ns, ss)
    ensures AllSet(schs, ss)
  {
  }

  lemma StaysSetItself(schs: Snapshot, a: Snapshot)
    ensures StaysSet(schs, a, a)
  {
  }

  lemma StaysSetTransitive(schs: Snapshot, a: Snapshot, b: Snapshot, c: Snapshot)
    requires StaysSet(schs, a, b) && StaysSet(schs, b, c) && schs.Keys <= b.Keys
    ensures StaysSet(schs, a, c)
  {
    forall n | n in schs && n in a && n in c && Settled(schs, schs[n], a[n]) ensures Settled(schs, schs[n], c[n]) {
      assert Settled(schs, schs[n], b[n]);
    }
  }

  /** A nested pass sets everything the snapshot of the outer pass asks for, and what was tidied stays so. */
  lemma SetFromStored(schs: Snapshot, stored: Snapshot, earlier: Snapshot, after: Snapshot)
    requires Extends(schs, stored) && AllSet(stored, after) && Extends(stored, after) && schs.Keys <= earlier.Keys
    requires forall n :: n in schs ==> stored[n] == earlier[n]
    ensures StaysSet(schs, earlier, after)
  {
    hide HasRelations, UnknownItem, FieldSet, SameField, Tidied, SchemaSet, ItemsKept, Bridges, IsMock, BridgesStand, Resolves;
    forall n | n in schs && n in earlier && n in after && Settled(schs, schs[n], earlier[n])
      ensures Settled(schs, schs[n], after[n])
    {
      assert SameSchema(schs[n], stored[n]) && Settled(stored, stored[n], after[n]) && SameSchema(stored[n], after[n]);
      SetThrough(schs[n], stored[n], after[n]);
      TidiedThrough(schs, schs[n], stored[n], after[n]);
    }
  }

  lemma SetThrough(s: Schema, t: Schema, u: Schema)
    requires SameSchema(s, t) && SchemaSet(t, u)
    ensures SchemaSet(s, u)
  {
    hide Stable;
    forall k | k in s.fields && k in u.fields ensures FieldSet(s.name, s.fields[k], u.fields[k]) {
      assert SameField(s.name, s.fields[k], t.fields[k]);
      assert FieldSet(t.name, t.fields[k], u.fields[k]);
    }
  }

  lemma TidiedThrough(schs: Snapshot, s: Schema, t: Schema, u: Schema)
    requires Tidied(schs, s, t) && SameSchema(t, u)
    ensures Tidied(schs, s, u)
  {
    hide HasRelations, UnknownItem, Stable, AsksForever;
    forall k | k in t.fields && t.fields[k].itemType == "" ensures u.fields[k].itemType == "" {
      assert SameField(t.name, t.fields[k], u.fields[k]);
    }
  }

  lemma TidiedVacuously(schs: Snapshot, s: Schema, t: Schema)
    ensures !HasRelations(s) ==> Tidied(schs, s, t)
  {
  }

  lemma StoredKeeps(schs: Snapshot, ss: Snapshot, mock: Schema)
    requires schs.Keys <= ss.Keys && mock.name !in schs
    ensures forall n :: n in schs ==> n in Stored(ss, [mock]) && Stored(ss, [mock])[n] == ss[n]
  {
    StoredOne(ss, mock);
  }

  /** What a pass makes of a schema is set and tidied, and it keeps the known item types. */
  lemma NewSchemaSettles(schs: Snapshot, n: string)
    requires n in schs
    ensures Tidied(schs, schs[n], NewSchema(schs, n))
    ensures NeedsUpdate(schs, n) <==> HasRelations(schs[n])
    ensures NeedsUpdate(schs, n) ==> ItemsKept(schs, schs[n], NewSchema(schs, n))
  {
    hide ParsedAt, NothingToSet, NewField;
    forall k | k in schs[n].fields
      ensures ParsedAt(schs, n, k).Parsed? <==> !NothingToSet(schs[n].name, schs[n].fields[k])
      ensures var f, g := schs[n].fields[k], NewField(schs, n, k);
              g.itemType == if f.relationConfig != "" && UnknownItem(schs, f.itemType) then "" else f.itemType
    {
      ParsesExactly(schs, n, k);
      ItemTypeExactly(schs, n, k);
    }
  }

  lemma ParsesExactly(schs: Snapshot, n: string, k: string)
    requires n in schs && k in schs[n].fields
    ensures ParsedAt(schs, n, k).Parsed? <==> !NothingToSet(schs[n].name, schs[n].fields[k])
  {
    hide RelationOf, Stable, BridgeOf;
    KnownDecidesNativeOnly(schs[n].fields[k].relationConfig, schs[n].name, schs[n].fields[k].relation, schs.Keys);
  }

  /** The item type a pass leaves: the one there was, unless the field has a config and nothing has that name. */
  lemma ItemTypeExactly(schs: Snapshot, n: string, k: string)
    requires n in schs && k in schs[n].fields
    ensures var f, g := schs[n].fields[k], NewField(schs, n, k);
            g.itemType == if f.relationConfig != "" && UnknownItem(schs, f.itemType) then "" else f.itemType
  {
    hide RelationOf;
  }

  /** A field asks for a mock bridge under every snapshot exactly when it is one of those that ask forever. */
  lemma AsksForeverExactly(srcSchema: string, f: Field)
    requires f.relationConfig != ""
    ensures AsksForever(srcSchema, f) <==>
            forall known: set<string> ::
              var r := RelationOf(f.relationConfig, srcSchema, f.relation, known);
              r.Parsed? && WantsMock(r.relation)
  {
    if AsksForever(srcSchema, f) {
      forall known: set<string> ensures var r := RelationOf(f.relationConfig, srcSchema, f.relation, known);
                                        r.Parsed? && WantsMock(r.relation)
      {
        KnownDecidesNativeOnly(f.relationConfig, srcSchema, f.relation, known);
      }
    } else {
      var b := BridgeOf(f.relationConfig);
      var known := if b.Some? then {b.value} else {};
      KnownDecidesNativeOnly(f.relationConfig, srcSchema, f.relation, known);
      var r := RelationOf(f.relationConfig, srcSchema, f.relation, known);
      assert !(r.Parsed? && WantsMock(r.relation));
    }
  }

  /** What parsing one field of the snapshot can give. */
  lemma FieldParsed(schs: Snapshot, s: Schema, f: Field)
    requires f.relationConfig != "" && !AsksForever(s.name, f)
    ensures var r := RelationOf(f.relationConfig, s.name, f.relation, schs.Keys);
            && (r.Parsed? ==> var g := f.(relation := Some(r.relation)); SameField(s.name, f, g) && !AsksForever(s.name, g))
            && (r.Parsed? && WantsMock(r.relation) ==>
                  FieldBridges(f) == {r.relation.brgSchema} && r.relation.brgSchema !in schs)
            && (!(r.Parsed? && WantsMock(r.relation)) ==> FieldBridges(f) <= schs.Keys)
            && (if r.Parsed? then FieldSet(s.name, f, f.(relation := Some(r.relation)))
                else NothingToSet(s.name, f) && FieldSet(s.name, f, f))
            && (FieldResolves(schs, s, f) <==>
                  && r != Panicked
                  && (r.Parsed? && WantsMock(r.relation) ==> r.relation.srcField in s.fields && HasTarget(schs, r.relation)))
  {
    hide RelationOf, Stable, BridgeOf;
    KnownDecidesNativeOnly(f.relationConfig, s.name, f.relation, schs.Keys);
    if RelationOf(f.relationConfig, s.name, f.relation, schs.Keys).Parsed? {
      ReparseIsStable(f.relationConfig, s.name, f.relation, schs.Keys);
    }
  }

  function Stored(ss: Snapshot, more: seq<Schema>): Snapshot {
    if more == [] then ss else
      var last := more[|more| - 1];
      Stored(ss, more[..|more| - 1])[last.name := last]
  }

  /** Of two inputs with one name the later one is stored, in place of what was there; everything else stays. */
  lemma {:induction false} StoredExactly(ss: Snapshot, more: seq<Schema>, n: string, i: nat)
    ensures n in Stored(ss, more) <==> n in ss || exists j :: 0 <= j < |more| && more[j].name == n
    ensures i < |more| && more[i].name == n && (forall j :: i < j < |more| ==> more[j].name != n) ==>
              n in Stored(ss, more) && Stored(ss, more)[n] == more[i]
    ensures n in ss && (forall j :: 0 <= j < |more| ==> more[j].name != n) ==> n in Stored(ss, more) && Stored(ss, more)[n] == ss[n]
    decreases |more|
  {
    if more != [] {
      var most := more[..|more| - 1];
      StoredExactly(ss, most, n, i);
      assert forall j :: 0 <= j < |most| ==> most[j] == more[j];
      if j :| 0 <= j < |more| && more[j].name == n && j < |most| { assert most[j].name == n; }
    }
  }

  lemma {:induction false} StoredValid(ss: Snapshot, more: seq<Schema>)
    requires Valid(ss) && forall s :: s in more ==> ValidSchema(s)
    ensures Valid(Stored(ss, more))
  {
    if more != [] { StoredValid(ss, more[..|more| - 1]); }
  }

  function Without(ss: Snapshot, names: seq<string>): Snapshot {
    if names == [] then ss else Without(ss, names[..|names| - 1]) - {names[|names| - 1]}
  }

  lemma {:induction false} WithoutExactly(ss: Snapshot, names: seq<string>, n: string)
    ensures n in Without(ss, names) <==> n in ss && n !in names
    ensures n in Without(ss, names) ==> Without(ss, names)[n] == ss[n]
  {
    if names != [] {
      WithoutExactly(ss, names[..|names| - 1], n);
      assert names == names[..|names| - 1] + [names[|names| - 1]];
    }
  }

  lemma {:induction false} WithoutValid(ss: Snapshot, names: seq<string>)
    requires Valid(ss)
    ensures Valid(Without(ss, names))
  {
    if names != [] { WithoutValid(ss, names[..|names| - 1]); }
  }

  lemma SameSchemaItself(s: Schema)
    ensures SameSchema(s, s)
  {
  }

  lemma ExtendsItself(ss: Snapshot)
    ensures Extends(ss, ss)
  {
  }

  lemma StoredOne(ss: Snapshot, s: Schema)
    ensures Stored(ss, [s]) == ss[s.name := s]
  {
    assert [s][..0] == [];
  }

  lemma StoreMock(schs: Snapshot, ss: Snapshot, mock: Schema)
    requires Extends(schs, ss) && mock.name !in schs && IsMock(mock) && mock.name in Bridges(schs)
    requires exists n, k :: StandsFor(schs, n, k, mock.name, mock)
    ensures Extends(schs, ss[mock.name := mock])
  {
    hide SameSchema, ItemsKept, IsMock, Bridges, StandsFor, Resolves, BridgesStand;
    var stored := ss[mock.name := mock];
    forall n | n in schs ensures n in stored && SameSchema(schs[n], stored[n]) && ItemsKept(schs, schs[n], stored[n]) {
      assert stored[n] == ss[n];
    }
    forall n | n in stored && n !in schs ensures stored[n].name == n && IsMock(stored[n]) && n in Bridges(schs) {
      if n != mock.name { assert stored[n] == ss[n]; }
    }
    if Resolves(schs) { OneMoreStands(schs, ss, mock); }
  }

  lemma OneMoreStands(schs: Snapshot, ss: Snapshot, mock: Schema)
    requires BridgesStand(schs, ss) && exists n, k :: StandsFor(schs, n, k, mock.name, mock)
    ensures BridgesStand(schs, ss[mock.name := mock])
  {
    hide StandsFor;
  }

  lemma SameStand(schs: Snapshot, ss: Snapshot, n: string, s: Schema)
    requires BridgesStand(schs, ss) && n in schs
    ensures BridgesStand(schs, ss[n := s])
  {
    hide StandsFor;
  }

  /**
   Registering a mock bridge that the snapshot lacks leaves fewer bridges missing than the snapshot has, even
   when the registry has grown since.
   */
  lemma MockStored(schs: Snapshot, ss: Snapshot, n: string, k: string, mock: Schema)
    requires Extends(schs, ss) && n in schs && k in schs[n].fields
    requires FieldBridges(schs[n].fields[k]) == {mock.name} && mock.name !in schs && IsMock(mock)
    requires StandsFor(schs, n, k, mock.name, mock)
    ensures var stored := Stored(ss, [mock]);
            && Extends(schs, stored)
            && Missing(stored) < Missing(schs)
            && stored.Keys == ss.Keys + {mock.name}
            && (Resolves(schs) ==> Resolves(stored))
  {
    hide Resolves, IsMock, FieldBridges, Extends, StandsFor;
    StoredOne(ss, mock);
    assert mock.name in SchemaBridges(schs[n]);
    StoreMock(schs, ss, mock);
    ExtendsKeys(schs, ss[mock.name := mock]);
    ExtendsKeys(schs, ss);
    ExtendsKeepsBridges(schs, ss[mock.name := mock]);
    assert mock.name in Missing(schs);
    if Resolves(schs) { ExtendsKeepsResolves(schs, ss[mock.name := mock]); }
  }

  /** Storing an updated schema of the snapshot over what nested passes have made of it. */
  lemma StoreSame(schs: Snapshot, ss: Snapshot, n: string, s: Schema)
    requires Valid(ss) && Extends(schs, ss) && n in schs && schs[n].name == n && SameSchema(schs[n], s) && ValidSchema(s)
    requires ItemsKept(schs, schs[n], s)
    ensures Extends(schs, ss[n := s]) && Valid(ss[n := s])
  {
    hide SameSchema, ItemsKept, ValidSchema, IsMock, Bridges, BridgesStand, Resolves, Valid, SameField, AsksForever, Stable, BridgeOf;
    SameName(schs[n], s);
    var stored := ss[n := s];
    if Resolves(schs) { SameStand(schs, ss, n, s); }
    OneStoredValid(ss, s);
    forall m | m in schs ensures m in stored && SameSchema(schs[m], stored[m]) && ItemsKept(schs, schs[m], stored[m]) {
      if m != n { assert stored[m] == ss[m]; }
    }
    forall m | m in stored && m !in schs ensures stored[m].name == m && IsMock(stored[m]) && m in Bridges(schs) {
      assert stored[m] == ss[m];
    }
  }

  lemma SameName(s: Schema, t: Schema)
    requires SameSchema(s, t)
    ensures t.name == s.name
  {
    hide SameField;
  }

  lemma OneStoredValid(ss: Snapshot, s: Schema)
    requires Valid(ss) && ValidSchema(s)
    ensures Valid(ss[s.name := s])
  {
    hide ValidSchema;
  }
}
