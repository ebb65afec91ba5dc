/** Registries with a field that asks for its bridge for ever: setting their relations does not return. */
module RegistryLoops {
  import opened Strings
  import opened Maps
  import opened Schemas
  import opened RelationConfig
  import opened RegistryRuns
  import opened Registry
  import opened RegistryEnds

  // ----- what every run keeps, on any registry -----

  /** The bridge a field asks for for ever. */
  function ForeverBridge(srcSchema: string, f: Field): set<string> {
    if AsksForever(srcSchema, f) then {f.relation.value.brgSchema} else {}
  }

  function SchemaForeverBridges(s: Schema): set<string> {
    set k, b | k in s.fields && b in ForeverBridge(s.name, s.fields[k]) :: b
  }

  /** The names under which mock schemas may replace registered ones. */
  function ForeverBridges(ss: Snapshot): set<string> {
    set n, b | n in ss && b in SchemaForeverBridges(ss[n]) :: b
  }

  predicate FieldAlike(srcSchema: string, f: Field, g: Field) {
    && g.relationConfig == f.relationConfig
    && Stable(g.relationConfig, srcSchema, g.relation) == Stable(f.relationConfig, srcSchema, f.relation)
    && ForeverBridge(srcSchema, g) == ForeverBridge(srcSchema, f)
  }

  /** The same fields, which parse and ask for bridges as they did. */
  ghost predicate Alike(s: Schema, t: Schema) {
    && t.name == s.name && t.fields.Keys == s.fields.Keys
    && forall k :: k in s.fields ==> FieldAlike(s.name, s.fields[k], t.fields[k])
  }

  ghost predicate ConfigFree(s: Schema) { forall k :: k in s.fields ==> s.fields[k].relationConfig == "" }

  /** Schemas are alike or asked for by nothing; only a bridge that is asked for for ever replaces a registered one. */
  ghost predicate Grown(ss: Snapshot, r: Snapshot) {
    && ss.Keys <= r.Keys
    && (forall n :: n in r ==> ConfigFree(r[n]) || (n in ss && Alike(ss[n], r[n])))
    && (forall n :: n in ss && n !in ForeverBridges(ss) ==> Alike(ss[n], r[n]))
  }

  lemma AlikeBridges(s: Schema, t: Schema)
    requires Alike(s, t)
    ensures SchemaForeverBridges(t) == SchemaForeverBridges(s)
  {
    hide AsksForever;
    forall k | k in s.fields ensures ForeverBridge(s.name, s.fields[k]) == ForeverBridge(t.name, t.fields[k]) {
      assert FieldAlike(s.name, s.fields[k], t.fields[k]);
    }
    hide ForeverBridge;
    forall b ensures b in SchemaForeverBridges(t) <==> b in SchemaForeverBridges(s) {
      if k :| k in s.fields && b in ForeverBridge(s.name, s.fields[k]) { assert b in ForeverBridge(t.name, t.fields[k]); }
      if k :| k in t.fields && b in ForeverBridge(t.name, t.fields[k]) { assert b in ForeverBridge(s.name, s.fields[k]); }
    }
  }

  lemma ConfigFreeBridges(s: Schema)
    requires ConfigFree(s)
    ensures SchemaForeverBridges(s) == {}
  {
  }

  lemma GrownBridges(ss: Snapshot, r: Snapshot)
    requires Grown(ss, r)
    ensures ForeverBridges(r) <= ForeverBridges(ss)
  {
    forall b | b in ForeverBridges(r) ensures b in ForeverBridges(ss) {
      var n :| n in r && b in SchemaForeverBridges(r[n]);
      hide SchemaForeverBridges, Alike, ConfigFree;
      if ConfigFree(r[n]) { ConfigFreeBridges(r[n]); } else { AlikeBridges(ss[n], r[n]); }
    }
  }

  lemma AlikeTransitive(s: Schema, t: Schema, u: Schema)
    requires Alike(s, t) && Alike(t, u)
    ensures Alike(s, u)
  {
    hide Stable, ForeverBridge;
    forall k | k in s.fields ensures FieldAlike(s.name, s.fields[k], u.fields[k]) {
      assert FieldAlike(s.name, s.fields[k], t.fields[k]) && FieldAlike(t.name, t.fields[k], u.fields[k]);
    }
  }

  lemma ConfigFreeAlike(s: Schema, t: Schema)
    requires ConfigFree(s) && Alike(s, t)
    ensures ConfigFree(t)
  {
    hide Stable, ForeverBridge;
    forall k | k in t.fields ensures t.fields[k].relationConfig == "" {
      assert FieldAlike(s.name, s.fields[k], t.fields[k]);
    }
  }

  lemma GrownTransitive(a: Snapshot, b: Snapshot, c: Snapshot)
    requires Grown(a, b) && Grown(b, c)
    ensures Grown(a, c)
  {
    hide Alike, ConfigFree, ForeverBridges;
    GrownBridges(a, b);
    forall n | n in c ensures ConfigFree(c[n]) || (n in a && Alike(a[n], c[n])) {
      if !ConfigFree(c[n]) {
        if ConfigFree(b[n]) { ConfigFreeAlike(b[n], c[n]); } else { AlikeTransitive(a[n], b[n], c[n]); }
      }
    }
    forall n | n in a && n !in ForeverBridges(a) ensures Alike(a[n], c[n]) {
      AlikeTransitive(a[n], b[n], c[n]);
    }
  }

  lemma GrownItself(ss: Snapshot)
    ensures Grown(ss, ss)
  {
  }

  /** A field asks for a bridge that is not registered, or for ever for the one its relation names. */
  lemma AskedBridge(schs: Snapshot, n: string, k: string)
    requires n in schs && k in schs[n].fields && AsksFor(ParsedAt(schs, n, k))
    ensures var b, f := ParsedAt(schs, n, k).relation.brgSchema, schs[n].fields[k];
            if BridgeOf(f.relationConfig).Some? then b == BridgeOf(f.relationConfig).value && b !in schs
            else ForeverBridge(schs[n].name, f) == {b}
  {
    var f := schs[n].fields[k];
    KnownDecidesNativeOnly(f.relationConfig, schs[n].name, f.relation, schs.Keys);
  }

  lemma IsForeverBridge(schs: Snapshot, n: string, k: string, b: string)
    requires n in schs && k in schs[n].fields && b in ForeverBridge(schs[n].name, schs[n].fields[k])
    ensures b in ForeverBridges(schs)
  {
    hide ForeverBridge;
    assert b in SchemaForeverBridges(schs[n]);
  }

  lemma MockIsQuiet(ss: Snapshot, n: string, rel: Relation)
    requires HasEnds(ss, n, rel)
    ensures var mock := MockAt(ss, n, rel);
            mock.name == rel.brgSchema && ConfigFree(mock) && forall k :: k in mock.fields ==> mock.fields[k].name == k
  {
  }

  lemma MockGrows(schs: Snapshot, n: string, k: string, r: Snapshot)
    requires Grown(schs, r) && n in schs && k in schs[n].fields
    requires AsksFor(ParsedAt(schs, n, k)) && HasEnds(schs, n, ParsedAt(schs, n, k).relation)
    ensures var rel := ParsedAt(schs, n, k).relation; Grown(schs, r[rel.brgSchema := MockAt(schs, n, rel)])
  {
    hide ParsedAt, MockAt, HasEnds, ConfigFree, Alike, ForeverBridge, ForeverBridges, BridgeOf;
    var rel := ParsedAt(schs, n, k).relation;
    AskedBridge(schs, n, k);
    MockIsQuiet(schs, n, rel);
    if rel.brgSchema in schs { IsForeverBridge(schs, n, k, rel.brgSchema); }
  }

  lemma ParsedAlike(srcSchema: string, f: Field, known: set<string>)
    requires RelationOf(f.relationConfig, srcSchema, f.relation, known).Parsed?
    ensures FieldAlike(srcSchema, f, f.(relation := Some(RelationOf(f.relationConfig, srcSchema, f.relation, known).relation)))
  {
    KnownDecidesNativeOnly(f.relationConfig, srcSchema, f.relation, known);
    ReparseIsStable(f.relationConfig, srcSchema, f.relation, known);
    hide Stable, RelationOf, BridgeOf;
  }

  lemma TidyAlike(srcSchema: string, f: Field, g: Field, schs: Snapshot)
    requires FieldAlike(srcSchema, f, g)
    ensures FieldAlike(srcSchema, f, Tidy(schs, g))
  {
    hide Stable, BridgeOf;
  }

  lemma NewFieldAlike(schs: Snapshot, n: string, k: string)
    requires n in schs && k in schs[n].fields
    ensures FieldAlike(schs[n].name, schs[n].fields[k], NewField(schs, n, k))
  {
    hide Stable, BridgeOf, RelationOf, AsksForever, FieldAlike, Tidy;
    var f := schs[n].fields[k];
    AlikeItself(schs[n].name, f);
    if f.relationConfig != "" {
      var p := ParsedAt(schs, n, k);
      if p.Parsed? { ParsedAlike(schs[n].name, f, schs.Keys); }
      TidyAlike(schs[n].name, f, if p.Parsed? then f.(relation := Some(p.relation)) else f, schs);
    }
  }

  lemma AlikeItself(srcSchema: string, f: Field)
    ensures FieldAlike(srcSchema, f, f)
  {
  }

  lemma NewSchemaAlike(schs: Snapshot, n: string)
    requires n in schs
    ensures Alike(schs[n], NewSchema(schs, n))
  {
    hide FieldAlike, NewField;
    forall k | k in schs[n].fields ensures FieldAlike(schs[n].name, schs[n].fields[k], NewSchema(schs, n).fields[k]) {
      NewFieldAlike(schs, n, k);
    }
  }

  lemma UpdateGrows(schs: Snapshot, n: string, r: Snapshot)
    requires Grown(schs, r) && n in schs
    ensures Grown(schs, Updated(schs, n, r))
  {
    hide Alike, ConfigFree, NewSchema, NeedsUpdate, ForeverBridges;
    NewSchemaAlike(schs, n);
  }

  // ----- registries on which no run panics -----

  /** The field parses; if it may ask for a bridge, both ends are there, and no mock can replace the target. */
  ghost predicate SoundField(ss: Snapshot, n: string, k: string)
    requires n in ss && k in ss[n].fields
  {
    var f := ss[n].fields[k];
    var t := Stable(f.relationConfig, ss[n].name, f.relation);
    && t != Panicked
    && (t.Parsed? && (AsksForever(ss[n].name, f) || (BridgeOf(f.relationConfig).Some? && BridgeOf(f.relationConfig).value !in ss)) ==>
          HasEnds(ss, n, t.relation) && t.relation.dstSchema !in ForeverBridges(ss))
  }

  ghost predicate Sound(ss: Snapshot) {
    forall n, k :: n in ss && k in ss[n].fields && ss[n].fields[k].relationConfig != "" ==> SoundField(ss, n, k)
  }

  /** No pass over a sound snapshot panics. */
  lemma SoundEnds(ss: Snapshot, n: string, k: string)
    requires Sound(ss) && n in ss && k in ss[n].fields
    ensures var p := ParsedAt(ss, n, k); p != Panicked && (AsksFor(p) ==> HasEnds(ss, n, p.relation))
  {
    var f := ss[n].fields[k];
    if f.relationConfig != "" {
      assert SoundField(ss, n, k);
      KnownDecidesNativeOnly(f.relationConfig, ss[n].name, f.relation, ss.Keys);
      hide Stable, RelationOf, BridgeOf, ForeverBridges;
    }
  }

  lemma AlikeEnds(ss: Snapshot, r: Snapshot, n: string, rel: Relation)
    requires HasEnds(ss, n, rel) && Grown(ss, r) && n in r && r[n].fields.Keys == ss[n].fields.Keys
    requires rel.dstSchema !in ForeverBridges(ss)
    ensures HasEnds(r, n, rel)
  {
    hide FieldAlike, ConfigFree, ForeverBridges;
    assert Alike(ss[rel.dstSchema], r[rel.dstSchema]);
  }

  lemma GrownSound(ss: Snapshot, r: Snapshot)
    requires Grown(ss, r) && Sound(ss)
    ensures Sound(r)
  {
    GrownBridges(ss, r);
    forall n, k | n in r && k in r[n].fields && r[n].fields[k].relationConfig != "" ensures SoundField(r, n, k) {
      GrownSoundField(ss, r, n, k);
    }
  }

  lemma GrownSoundField(ss: Snapshot, r: Snapshot, n: string, k: string)
    requires Grown(ss, r) && Sound(ss) && ForeverBridges(r) <= ForeverBridges(ss)
    requires n in r && k in r[n].fields && r[n].fields[k].relationConfig != ""
    ensures SoundField(r, n, k)
  {
    hide Stable, BridgeOf, ForeverBridges, AsksForever, HasEnds;
    assert !ConfigFree(r[n]) && Alike(ss[n], r[n]);
    assert FieldAlike(ss[n].name, ss[n].fields[k], r[n].fields[k]);
    assert SoundField(ss, n, k);
    var f := ss[n].fields[k];
    var t := Stable(f.relationConfig, ss[n].name, f.relation);
    if t.Parsed? && HasEnds(ss, n, t.relation) && t.relation.dstSchema !in ForeverBridges(ss) {
      AlikeEnds(ss, r, n, t.relation);
    }
  }

  // ----- what holds over every run -----

  /** A run that returns has grown the registry; on a sound one it does not panic. */
  ghost predicate Keeps(schs: Snapshot, o: Outcome) {
    (o.Returned? ==> Grown(schs, o.schemas)) && (Sound(schs) ==> o != Stopped)
  }

  lemma {:induction false} FieldKeeps(schs: Snapshot, n: string, k: string, r: Snapshot, o: Outcome, d: nat)
    requires n in schs && k in schs[n].fields && Grown(schs, r) && FieldRun(schs, n, k, r, o, d)
    ensures Keeps(schs, o)
    decreases d, 0, 0
  {
    hide ParsedAt, MockAt, HasEnds, Grown, Sound, Pass;
    var p := ParsedAt(schs, n, k);
    if Sound(schs) { SoundEnds(schs, n, k); }
    if p != Panicked && AsksFor(p) && HasEnds(schs, n, p.relation) && d > 0 {
      MockGrows(schs, n, k, r);
      var stored := r[p.relation.brgSchema := MockAt(schs, n, p.relation)];
      if Sound(schs) { GrownSound(schs, stored); }
      PassKeeps(stored, o, d - 1);
      if o.Returned? { GrownTransitive(schs, stored, o.schemas); }
    }
  }

  lemma {:induction false} FieldsKeep(schs: Snapshot, n: string, ks: seq<string>, r: Snapshot, o: Outcome, d: nat)
    requires n in schs && (forall k :: k in ks ==> k in schs[n].fields) && Grown(schs, r) && FieldsRun(schs, n, ks, r, o, d)
    ensures Keeps(schs, o)
    decreases d, 1, |ks|
  {
    hide Grown, Sound, FieldRun;
    if ks != [] {
      var mid :| FieldsRun(schs, n, ks[..|ks| - 1], r, mid, d)
                 && if mid.Returned? then FieldRun(schs, n, ks[|ks| - 1], mid.schemas, o, d) else o == mid;
      FieldsKeep(schs, n, ks[..|ks| - 1], r, mid, d);
      if mid.Returned? { FieldKeeps(schs, n, ks[|ks| - 1], mid.schemas, o, d); }
    }
  }

  lemma {:induction false} SchemaKeeps(schs: Snapshot, n: string, r: Snapshot, o: Outcome, d: nat)
    requires n in schs && Grown(schs, r) && SchemaRun(schs, n, r, o, d)
    ensures Keeps(schs, o)
    decreases d, 2, 0
  {
    hide Grown, Sound, NeedsUpdate, NewSchema, FieldsRun;
    var mid :| AllFieldsRun(schs, n, r, mid, d)
               && o == if mid.Returned? then Returned(Updated(schs, n, mid.schemas)) else mid;
    var ks :| Enumerates(ks, schs[n].fields) && FieldsRun(schs, n, ks, r, mid, d);
    FieldsKeep(schs, n, ks, r, mid, d);
    if mid.Returned? { UpdateGrows(schs, n, mid.schemas); }
  }

  lemma {:induction false} SchemasKeep(schs: Snapshot, ns: seq<string>, r: Snapshot, o: Outcome, d: nat)
    requires (forall n :: n in ns ==> n in schs) && Grown(schs, r) && SchemasRun(schs, ns, r, o, d)
    ensures Keeps(schs, o)
    decreases d, 3, |ns|
  {
    hide Grown, Sound, SchemaRun;
    if ns != [] {
      var mid :| SchemasRun(schs, ns[..|ns| - 1], r, mid, d)
                 && if mid.Returned? then SchemaRun(schs, ns[|ns| - 1], mid.schemas, o, d) else o == mid;
      SchemasKeep(schs, ns[..|ns| - 1], r, mid, d);
      if mid.Returned? { SchemaKeeps(schs, ns[|ns| - 1], mid.schemas, o, d); }
    }
  }

  /** On any registry: every run that returns has only grown it, and no run panics on a sound one. */
  lemma {:induction false} PassKeeps(ss: Snapshot, o: Outcome, d: nat)
    requires Pass(ss, o, d)
    ensures Keeps(ss, o)
    decreases d, 4, 0
  {
    hide Grown, Sound, SchemasRun;
    var ns :| Enumerates(ns, ss) && SchemasRun(ss, ns, ss, o, d);
    GrownItself(ss);
    SchemasKeep(ss, ns, ss, o, d);
  }

  // ----- fields that ask for ever -----

  /** A field that asks for ever, in a schema that no mock can replace. */
  ghost predicate AsksInVain(ss: Snapshot, n: string, k: string) {
    n in ss && k in ss[n].fields && AsksForever(ss[n].name, ss[n].fields[k]) && n !in ForeverBridges(ss)
  }

  lemma StillAsks(ss: Snapshot, r: Snapshot, n: string, k: string)
    requires AsksInVain(ss, n, k) && Grown(ss, r)
    ensures AsksInVain(r, n, k)
  {
    GrownBridges(ss, r);
    hide AsksForever, ForeverBridges, ConfigFree;
    assert Alike(ss[n], r[n]);
    assert FieldAlike(ss[n].name, ss[n].fields[k], r[n].fields[k]);
  }

  lemma AsksNow(schs: Snapshot, n: string, k: string)
    requires AsksInVain(schs, n, k)
    ensures AsksFor(ParsedAt(schs, n, k))
  {
    var f := schs[n].fields[k];
    KnownDecidesNativeOnly(f.relationConfig, schs[n].name, f.relation, schs.Keys);
  }

  /** A run over the fields of a schema that returns has met each of them and returned from it. */
  lemma {:induction false} FieldsMeet(schs: Snapshot, n: string, ks: seq<string>, k: string, r: Snapshot, o: Outcome, d: nat)
    returns (met: Snapshot, left: Snapshot)
    requires n in schs && (forall k :: k in ks ==> k in schs[n].fields) && k in ks && Grown(schs, r)
    requires FieldsRun(schs, n, ks, r, o, d) && o.Returned?
    ensures Grown(schs, met) && FieldRun(schs, n, k, met, Returned(left), d)
  {
    hide Grown, FieldRun;
    var mid :| FieldsRun(schs, n, ks[..|ks| - 1], r, mid, d)
               && if mid.Returned? then FieldRun(schs, n, ks[|ks| - 1], mid.schemas, o, d) else o == mid;
    FieldsKeep(schs, n, ks[..|ks| - 1], r, mid, d);
    if k == ks[|ks| - 1] {
      met, left := mid.schemas, o.schemas;
    } else {
      met, left := FieldsMeet(schs, n, ks[..|ks| - 1], k, r, mid, d);
    }
  }

  /** A run over schemas that returns has met each of them. */
  lemma {:induction false} SchemasMeet(schs: Snapshot, ns: seq<string>, n: string, r: Snapshot, o: Outcome, d: nat)
    returns (met: Snapshot, left: Snapshot)
    requires (forall n :: n in ns ==> n in schs) && n in ns && Grown(schs, r)
    requires SchemasRun(schs, ns, r, o, d) && o.Returned?
    ensures Grown(schs, met) && AllFieldsRun(schs, n, met, Returned(left), d)
  {
    hide Grown, AllFieldsRun, NeedsUpdate, NewSchema;
    var mid :| SchemasRun(schs, ns[..|ns| - 1], r, mid, d)
               && if mid.Returned? then SchemaRun(schs, ns[|ns| - 1], mid.schemas, o, d) else o == mid;
    SchemasKeep(schs, ns[..|ns| - 1], r, mid, d);
    if n == ns[|ns| - 1] {
      var fields :| AllFieldsRun(schs, n, mid.schemas, fields, d)
                    && o == if fields.Returned? then Returned(Updated(schs, n, fields.schemas)) else fields;
      met, left := mid.schemas, fields.schemas;
    } else {
      met, left := SchemasMeet(schs, ns[..|ns| - 1], n, r, mid, d);
    }
  }

  /** A field that asks for ever, in a schema that no mock can replace: no run returns, in whatever order. */
  lemma {:induction false} NeverReturns(ss: Snapshot, n: string, k: string, o: Outcome, d: nat)
    requires AsksInVain(ss, n, k) && Pass(ss, o, d)
    ensures !o.Returned?
    decreases d
  {
    hide *;
    if o.Returned? {
      var met, left := PassMeets(ss, n, k, o, d);
      var stored := AsksAgain(ss, n, k, met, left, d);
      NeverReturns(stored, n, k, Returned(left), d - 1);
    }
  }

  /** Getting past the field takes a nested pass that returns, over a registry on which the field asks again. */
  lemma AsksAgain(ss: Snapshot, n: string, k: string, met: Snapshot, left: Snapshot, d: nat) returns (stored: Snapshot)
    requires AsksInVain(ss, n, k) && Grown(ss, met) && FieldRun(ss, n, k, met, Returned(left), d)
    ensures d > 0 && AsksInVain(stored, n, k) && Pass(stored, Returned(left), d - 1)
  {
    hide AsksForever, Grown, Pass, ParsedAt, MockAt, HasEnds, ForeverBridges;
    AsksNow(ss, n, k);
    var rel := ParsedAt(ss, n, k).relation;
    assert HasEnds(ss, n, rel);
    MockGrows(ss, n, k, met);
    stored := met[rel.brgSchema := MockAt(ss, n, rel)];
    StillAsks(ss, stored, n, k);
  }

  lemma PassMeets(ss: Snapshot, n: string, k: string, o: Outcome, d: nat) returns (met: Snapshot, left: Snapshot)
    requires AsksInVain(ss, n, k) && Pass(ss, o, d) && o.Returned?
    ensures Grown(ss, met) && FieldRun(ss, n, k, met, Returned(left), d)
  {
    hide Grown, SchemasRun, FieldsRun, FieldRun;
    var ns :| Enumerates(ns, ss) && SchemasRun(ss, ns, ss, o, d);
    GrownItself(ss);
    var start, end := SchemasMeet(ss, ns, n, ss, o, d);
    var ks :| Enumerates(ks, ss[n].fields) && FieldsRun(ss, n, ks, start, Returned(end), d);
    met, left := FieldsMeet(ss, n, ks, k, start, Returned(end), d);
  }

  // ----- exactly when a registration returns -----

  /** Schemas and fields stand under their names. */
  predicate Keyed(ss: Snapshot) {
    forall n :: n in ss ==> ss[n].name == n && forall k :: k in ss[n].fields ==> ss[n].fields[k].name == k
  }

  predicate NoneAsksForever(ss: Snapshot) {
    forall n, k :: n in ss && k in ss[n].fields ==> !AsksForever(n, ss[n].fields[k])
  }

  /** No field asks for ever for a bridge named like a schema that has such a field itself. */
  predicate Unreplaced(ss: Snapshot) {
    forall n, k :: n in ss && k in ss[n].fields && AsksForever(n, ss[n].fields[k]) ==> n !in ForeverBridges(ss)
  }

  /**
   Given the depth that the missing bridges take, a run returns exactly when no field asks for ever and everything
   resolves. On a sound registry every other run nests too deep, whatever the depth.
   */
  lemma ReturnsExactlyWhen(ss: Snapshot, o: Outcome, d: nat)
    requires Keyed(ss) && Unreplaced(ss) && |Missing(ss)| <= d && Pass(ss, o, d)
    ensures o.Returned? <==> NoneAsksForever(ss) && Resolves(ss)
    ensures Sound(ss) ==> (o == TooDeep <==> !NoneAsksForever(ss))
  {
    hide AsksForever, ForeverBridges, Sound, Resolves, Pass, Missing, Grown;
    PassKeeps(ss, o, d);
    if NoneAsksForever(ss) {
      PassEnds(ss, o, d);
    } else {
      var n, k :| n in ss && k in ss[n].fields && AsksForever(n, ss[n].fields[k]);
      NeverReturns(ss, n, k, o, d);
    }
  }

  // ----- a bridge that replaces the schema that asks for it -----

  /** One field of one schema has a config: it asks for ever for a bridge named like its own schema. */
  ghost predicate AsksForItsOwn(ss: Snapshot, n: string, k: string) {
    && Keyed(ss) && n in ss && k in ss[n].fields
    && (forall m, j :: m in ss && j in ss[m].fields && ss[m].fields[j].relationConfig != "" ==> m == n && j == k)
    && AsksFor(ParsedAt(ss, n, k)) && HasEnds(ss, n, ParsedAt(ss, n, k).relation)
    && ParsedAt(ss, n, k).relation.brgSchema == n
  }

  lemma OwnMock(ss: Snapshot, n: string, k: string, o: Outcome, d: nat)
    requires AsksForItsOwn(ss, n, k) && FieldRun(ss, n, k, ss, o, d) && d > 0
    ensures o.Returned?
  {
    hide ParsedAt, MockAt, HasEnds, IsMock, Pass, Valid, Missing, Resolves, ConfigFree;
    var rel := ParsedAt(ss, n, k).relation;
    var stored := ss[n := MockAt(ss, n, rel)];
    MockIsQuiet(ss, n, rel);
    forall m | m in ss && m != n ensures ConfigFree(ss[m]) { OthersAreQuiet(ss, n, k, m); }
    QuietIsValid(stored);
    PassEnds(stored, o, d - 1);
  }

  lemma OthersAreQuiet(ss: Snapshot, n: string, k: string, m: string)
    requires AsksForItsOwn(ss, n, k) && m in ss && m != n
    ensures ConfigFree(ss[m])
  {
  }

  lemma QuietIsValid(ss: Snapshot)
    requires Keyed(ss) && forall n :: n in ss ==> ConfigFree(ss[n])
    ensures Valid(ss) && Resolves(ss) && Missing(ss) == {}
  {
    forall n, k | n in ss && k in ss[n].fields ensures ss[n].fields[k].relationConfig == "" {
      assert ConfigFree(ss[n]);
    }
  }

  lemma {:induction false} OwnFields(ss: Snapshot, n: string, k: string, m: string, ks: seq<string>, r: Snapshot, o: Outcome, d: nat)
    requires AsksForItsOwn(ss, n, k) && m in ss && (forall j :: j in ks ==> j in ss[m].fields) && d > 0
    requires (forall i, j :: 0 <= i < j < |ks| ==> ks[i] != ks[j]) && (m == n ==> r == ss)
    requires FieldsRun(ss, m, ks, r, o, d)
    ensures o.Returned? && (m != n || k !in ks ==> o == Returned(r))
    decreases |ks|
  {
    hide AsksFor, ParsedAt, HasEnds, FieldRun;
    if ks != [] {
      var mid :| FieldsRun(ss, m, ks[..|ks| - 1], r, mid, d)
                 && if mid.Returned? then FieldRun(ss, m, ks[|ks| - 1], mid.schemas, o, d) else o == mid;
      var last := ks[|ks| - 1];
      OwnFields(ss, n, k, m, ks[..|ks| - 1], r, mid, d);
      if m == n && last == k {
        OwnMock(ss, n, k, o, d);
      } else {
        QuietField(ss, m, last, mid.schemas, o, d);
      }
    }
  }

  lemma QuietField(schs: Snapshot, n: string, k: string, r: Snapshot, o: Outcome, d: nat)
    requires n in schs && k in schs[n].fields && schs[n].fields[k].relationConfig == "" && FieldRun(schs, n, k, r, o, d)
    ensures o == Returned(r)
  {
  }

  lemma {:induction false} OwnSchemas(ss: Snapshot, n: string, k: string, ns: seq<string>, o: Outcome, d: nat)
    requires AsksForItsOwn(ss, n, k) && (forall m :: m in ns ==> m in ss) && d > 0
    requires (forall i, j :: 0 <= i < j < |ns| ==> ns[i] != ns[j]) && SchemasRun(ss, ns, ss, o, d)
    ensures o.Returned? && (n !in ns ==> o == Returned(ss))
    decreases |ns|
  {
    hide AsksForItsOwn, NeedsUpdate, NewSchema, AllFieldsRun;
    if ns != [] {
      var mid :| SchemasRun(ss, ns[..|ns| - 1], ss, mid, d)
                 && if mid.Returned? then SchemaRun(ss, ns[|ns| - 1], mid.schemas, o, d) else o == mid;
      var m := ns[|ns| - 1];
      OwnSchemas(ss, n, k, ns[..|ns| - 1], mid, d);
      var fields :| AllFieldsRun(ss, m, mid.schemas, fields, d)
                    && o == if fields.Returned? then Returned(Updated(ss, m, fields.schemas)) else fields;
      OwnSchema(ss, n, k, m, mid.schemas, fields, d);
    }
  }

  lemma OwnSchema(ss: Snapshot, n: string, k: string, m: string, r: Snapshot, o: Outcome, d: nat)
    requires AsksForItsOwn(ss, n, k) && m in ss && d > 0 && (m == n ==> r == ss) && AllFieldsRun(ss, m, r, o, d)
    ensures o.Returned? && (m != n ==> o == Returned(r) && !NeedsUpdate(ss, m))
  {
    hide AsksFor, HasEnds, FieldsRun;
    var ks :| Enumerates(ks, ss[m].fields) && FieldsRun(ss, m, ks, r, o, d);
    OwnFields(ss, n, k, m, ks, r, o, d);
  }

  /**
   The condition cannot go: where the mock replaces the schema that asks for it, the nested pass meets no asker
   and every run returns, although the field asks for ever.
   */
  lemma OwnBridgeReturns(ss: Snapshot, n: string, k: string, o: Outcome, d: nat)
    requires AsksForItsOwn(ss, n, k) && Pass(ss, o, d) && d > 0
    ensures o.Returned? && AsksForever(n, ss[n].fields[k]) && !Unreplaced(ss)
  {
    OwnAsksForever(ss, n, k);
    hide AsksForItsOwn, SchemasRun, AsksForever, ForeverBridges;
    var ns :| Enumerates(ns, ss) && SchemasRun(ss, ns, ss, o, d);
    OwnSchemas(ss, n, k, ns, o, d);
  }

  lemma OwnAsksForever(ss: Snapshot, n: string, k: string)
    requires AsksForItsOwn(ss, n, k)
    ensures n in ss && k in ss[n].fields && AsksForever(n, ss[n].fields[k]) && n in ForeverBridges(ss)
  {
    AskedBridge(ss, n, k);
    IsForeverBridge(ss, n, k, n);
  }
}
