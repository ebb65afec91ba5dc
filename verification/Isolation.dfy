/** schema.go and namespace.go as objects: what a lookup returns shares nothing with the registry, and caches stay right. */
module Isolation {
  import opened Strings
  import opened Maps
  import opened Schemas

  class RelationBox {
    var value: Relation

    constructor (value: Relation)
      ensures this.value == value
    {
      this.value := value;
    }
  }

  /** *Field: the relation is a pointer of its own. */
  class FieldBox {
    var value: Field
    var relation: RelationBox?

    constructor (value: Field, relation: RelationBox?)
      ensures this.value == value && this.relation == relation
    {
      this.value, this.relation := value, relation;
    }

    ghost function Read(): Field
      reads this, relation
    {
      value.(relation := if relation == null then None else Some(relation.value))
    }

    ghost predicate Within(own: set<object>)
      reads this
    {
      this in own && (relation != null ==> relation in own)
    }

    /** schema.go:240-245, 264-271. */
    method Clone() returns (copied: FieldBox, ghost made: set<object>)
      ensures fresh(made) && copied.Within(made) && copied.value == value
      ensures if relation == null then copied.relation == null
              else copied.relation != null && copied.relation.value == relation.value
    {
      var rel: RelationBox? := null;
      if relation != null {
        rel := new RelationBox(relation.value);
      }
      copied := new FieldBox(value, rel);
      made := if rel == null then {copied} else {copied, rel};
    }
  }

  class Cache {
    var native: Option<map<string, FieldBox>>
    var scalar: Option<seq<FieldBox>>
    var primary: Option<seq<FieldBox>>

    constructor ()
      ensures native == None && scalar == None && primary == None
    {
      native, scalar, primary := None, None, None;
    }

    ghost predicate Within(own: set<object>)
      reads this
    {
      && (native.Some? ==> forall c :: c in native.value ==> native.value[c] in own)
      && (scalar.Some? ==> forall f :: f in scalar.value ==> f in own)
      && (primary.Some? ==> forall f :: f in primary.value ==> f in own)
    }
  }

  /** What a schema without a cache has cached. */
  const NOTHING: (Option<map<string, FieldBox>>, Option<seq<FieldBox>>, Option<seq<FieldBox>>) := (None, None, None)

  /** The fields by native name, for some order in which they were walked. */
  ghost predicate IsNativeMap(fields: map<string, FieldBox>, nf: map<string, FieldBox>)
    reads fields.Values, nf.Values
  {
    && (forall k :: k in fields ==> fields[k].value.nativeName in nf)
    && (forall c :: c in nf ==> nf[c] in fields.Values && nf[c].value.nativeName == c)
  }

  /** The two kinds of lists: fields of a scalar type, and primary fields. */
  datatype Kind = Scalars | Primaries

  /** Whether a field has to be in a list. */
  predicate Belongs(kind: Kind, f: Field) {
    match kind
    case Scalars => f.typ in {"string", "int", "float", "bool", "time"}
    case Primaries => f.isPrimary
  }

  /** A list in some order: every field that belongs to it once, and nothing else. */
  ghost predicate IsListOf(fields: map<string, FieldBox>, kind: Kind, fs: seq<FieldBox>)
    reads fields.Values
  {
    exists ks :: Lists(fields, kind, ks) && AreFields(fields, ks, fs)
  }

  ghost predicate Lists(fields: map<string, FieldBox>, kind: Kind, ks: seq<string>)
    reads fields.Values
  {
    && (forall k :: k in ks <==> k in fields && Belongs(kind, fields[k].value))
    && forall i, j :: 0 <= i < j < |ks| ==> ks[i] != ks[j]
  }

  ghost predicate AreFields(fields: map<string, FieldBox>, ks: seq<string>, fs: seq<FieldBox>) {
    |fs| == |ks| && forall i :: 0 <= i < |ks| ==> ks[i] in fields && fs[i] == fields[ks[i]]
  }

  lemma ListedAreFields(fields: map<string, FieldBox>, kind: Kind, fs: seq<FieldBox>)
    requires IsListOf(fields, kind, fs)
    ensures forall f :: f in fs ==> f in fields.Values
  {
    var ks :| Lists(fields, kind, ks) && AreFields(fields, ks, fs);
  }

  class SchemaBox {
    var name: string
    var nativeName: string
    var fields: map<string, FieldBox>
    var cache: Cache?

    constructor (name: string, nativeName: string, fields: map<string, FieldBox>, cache: Cache?)
      ensures this.name == name && this.nativeName == nativeName && this.fields == fields && this.cache == cache
    {
      this.name, this.nativeName, this.fields, this.cache := name, nativeName, fields, cache;
    }

    ghost function Relations(): set<RelationBox>
      reads this`fields, fields.Values
    {
      set f | f in fields.Values && f.relation != null :: f.relation
    }

    /** The schema as a value. */
    ghost function Read(): Schema
      reads this`name, this`nativeName, this`fields, fields.Values, Relations()
    {
      Schema(name, nativeName, map k | k in fields :: ReadAt(k))
    }

    ghost function ReadAt(k: string): Field
      requires k in fields
      reads this`fields, fields.Values, Relations()
    {
      assert fields[k].relation != null ==> fields[k].relation in Relations();
      fields[k].Read()
    }

    /** Everything reachable belongs to `own`: the fields, the cache, and the fields in cached lists. */
    ghost predicate Within(own: set<object>)
      reads this, cache, fields.Values
    {
      && this in own && (forall k :: k in fields ==> fields[k].Within(own))
      && (cache != null ==> cache in own && cache.Within(own))
    }

    /** What the cache holds is what computing it again would give. */
    ghost predicate CacheFits()
      reads this, cache, fields.Values, if cache != null && cache.native.Some? then cache.native.value.Values else {}
    {
      cache != null ==>
        && (cache.native.Some? ==> IsNativeMap(fields, cache.native.value))
        && (cache.scalar.Some? ==> IsListOf(fields, Scalars, cache.scalar.value))
        && (cache.primary.Some? ==> IsListOf(fields, Primaries, cache.primary.value))
    }

    ghost predicate Keyed()
      reads this, fields.Values
    {
      forall k :: k in fields ==> fields[k].value.name == k
    }

    /** The fields of a clone: each is a field of the schema, now under its name, and no name is lost. */
    ghost predicate Rekeyed(fs: map<string, FieldBox>)
      reads this`fields, fields.Values, Relations(), fs.Values, set f | f in fs.Values && f.relation != null :: f.relation
    {
      && (forall k :: k in fields ==> fields[k].value.name in fs)
      && (forall c :: c in fs ==> exists k :: k in fields && fields[k].value.name == c && SameAs(fs[c], k))
    }

    ghost predicate SameAs(f: FieldBox, k: string)
      requires k in fields
      reads this`fields, fields.Values, Relations(), f, f.relation
    {
      f.Read() == ReadAt(k)
    }

    /** schema.go:72-80. The cache pointer is copied. */
    method Clone() returns (copied: SchemaBox, ghost made: set<object>)
      ensures fresh(made) && copied.name == name && copied.nativeName == nativeName && copied.cache == cache
      ensures Rekeyed(copied.fields) && (Keyed() ==> copied.Read() == Read())
      ensures cache == null ==> copied.Within(made)
    {
      hide FieldBox.Read, FieldBox.Within, Read, Within, Rekeyed, Keyed;
      var fs;
      ghost var from, own;
      fs, own, from := CloneFields();
      copied := new SchemaBox(name, nativeName, fs, cache);
      made := own + {copied};
      ClonedFields(fs, from);
      CloneOwns(copied, fs, own);
      if Keyed() { SameRead(this, copied); }
    }

    /** schema.go:75-78. With equal names the field met last wins. */
    method CloneFields() returns (fs: map<string, FieldBox>, ghost made: set<object>, ghost from: map<string, string>)
      ensures fresh(made) && from.Keys == fs.Keys && forall k :: k in fields ==> fields[k].value.name in fs
      ensures forall c :: c in fs ==> from[c] in fields && fields[from[c]].value.name == c
      ensures forall c :: c in fs ==> fs[c] in made && fs[c].value == fields[from[c]].value
      ensures forall c :: c in fs ==>
                if fields[from[c]].relation == null then fs[c].relation == null
                else fs[c].relation != null && fs[c].relation in made && fs[c].relation.value == fields[from[c]].relation.value
    {
      fs, made, from := map[], {}, map[];
      var order := Range(fields);
      assert forall k :: k in order <==> k in fields;
      hide Enumerates, Relations, Read, ReadAt;
      for i := 0 to |order|
        invariant fresh(made) && from.Keys == fs.Keys
        invariant forall j :: 0 <= j < i ==> fields[order[j]].value.name in fs
        invariant forall c :: c in fs ==> from[c] in fields && fields[from[c]].value.name == c
        invariant forall c :: c in fs ==> fs[c] in made && fs[c].value == fields[from[c]].value
        invariant forall c :: c in fs ==>
                    if fields[from[c]].relation == null then fs[c].relation == null
                    else fs[c].relation != null && fs[c].relation in made && fs[c].relation.value == fields[from[c]].relation.value
      {
        var f := fields[order[i]];
        var c, own := f.Clone();
        made := made + own;
        fs, from := fs[f.value.name := c], from[f.value.name := order[i]];
      }
    }

    lemma ClonedFields(fs: map<string, FieldBox>, from: map<string, string>)
      requires from.Keys == fs.Keys && forall k :: k in fields ==> fields[k].value.name in fs
      requires forall c :: c in fs ==> from[c] in fields && fields[from[c]].value.name == c && fs[c].value == fields[from[c]].value
      requires forall c :: c in fs ==>
                 if fields[from[c]].relation == null then fs[c].relation == null
                 else fs[c].relation != null && fs[c].relation.value == fields[from[c]].relation.value
      ensures Rekeyed(fs)
    {
      forall c | c in fs ensures exists k :: k in fields && fields[k].value.name == c && SameAs(fs[c], k) {
        assert SameAs(fs[c], from[c]);
      }
    }

    lemma CloneOwns(copied: SchemaBox, fs: map<string, FieldBox>, own: set<object>)
      requires copied.fields == fs
      requires forall c :: c in fs ==> fs[c] in own && (fs[c].relation != null ==> fs[c].relation in own)
      ensures copied.cache == null ==> copied.Within(own + {copied})
    {
    }

    /** What is cached: the native map, the scalar and the primary list. */
    ghost function Cached(): (Option<map<string, FieldBox>>, Option<seq<FieldBox>>, Option<seq<FieldBox>>)
      reads this`cache, cache
    {
      if cache == null then NOTHING else (cache.native, cache.scalar, cache.primary)
    }

    /** schema.go:143-148. */
    method GetCache() returns (c: Cache)
      modifies this`cache
      ensures cache == c && (old(cache) != null ==> c == old(cache))
      ensures old(cache) == null ==> fresh(c)
      ensures Cached() == old(Cached()) && Read() == old(Read()) && (old(CacheFits()) ==> CacheFits())
    {
      if cache == null {
        cache := new Cache();
      }
      c := cache;
    }

    /** schema.go:82-92. */
    method NativeFields() returns (nf: map<string, FieldBox>)
      modifies this`cache, cache
      ensures cache != null && (if old(cache) == null then fresh(cache) else cache == old(cache))
      ensures Read() == old(Read())
      ensures old(CacheFits()) ==> IsNativeMap(fields, nf) && CacheFits()
      ensures Cached() == old(Cached()).(0 := Some(nf))
      ensures if old(Cached()).0.Some? then nf == old(Cached()).0.value else IsNativeMap(fields, nf)
    {
      hide IsListOf, IsNativeMap;
      var c := GetCache();
      if c.native == None {
        nf := ByNativeName();
        FillNative(nf);
      }
      nf := c.native.value;
    }

    /** schema.go:90. */
    method FillNative(nf: map<string, FieldBox>)
      requires cache != null && cache.native == None && IsNativeMap(fields, nf)
      modifies cache
      ensures Cached() == old(Cached()).(0 := Some(nf)) && IsNativeMap(fields, nf)
      ensures Read() == old(Read()) && (old(CacheFits()) ==> CacheFits())
    {
      hide IsListOf, IsNativeMap, FieldBox.Read;
      cache.native := Some(nf);
      assert forall k :: k in fields ==> ReadAt(k) == old(ReadAt(k));
    }

    /** schema.go:86-89. With equal native names the field met last wins. */
    method ByNativeName() returns (nf: map<string, FieldBox>)
      ensures IsNativeMap(fields, nf)
    {
      nf := map[];
      var order := Range(fields);
      for i := 0 to |order|
        invariant forall j :: 0 <= j < i ==> fields[order[j]].value.nativeName in nf
        invariant forall n :: n in nf ==> nf[n] in fields.Values && nf[n].value.nativeName == n
      {
        var field := fields[order[i]];
        nf := nf[field.value.nativeName := field];
      }
      forall k | k in fields ensures fields[k].value.nativeName in nf {
        var j :| 0 <= j < |order| && order[j] == k;
      }
    }

    /** schema.go:98-104, 154-160: a walk over the fields. */
    method Select(kind: Kind) returns (fs: seq<FieldBox>)
      ensures IsListOf(fields, kind, fs)
    {
      hide Belongs;
      fs := [];
      var order := Range(fields);
      ghost var ks: seq<string> := [];
      for i := 0 to |order|
        invariant AreFields(fields, ks, fs)
        invariant forall k :: k in ks <==> k in order[..i] && Belongs(kind, fields[k].value)
        invariant forall a, b :: 0 <= a < b < |ks| ==> ks[a] != ks[b]
      {
        assert order[..i + 1] == order[..i] + [order[i]];
        assert order[i] !in order[..i];
        var f := fields[order[i]];
        var belongs := Passes(kind, f.value);
        if belongs {
          forall a | 0 <= a < |ks| ensures ks[a] != order[i] { assert ks[a] in ks; }
          fs, ks := fs + [f], ks + [order[i]];
        }
      }
      assert order[..|order|] == order;
      assert Lists(fields, kind, ks);
    }

    method Passes(kind: Kind, f: Field) returns (r: bool)
      ensures r == Belongs(kind, f)
    {
      r := if kind == Scalars then f.IsScalarType() else f.isPrimary;
    }

    /** schema.go:94-106. */
    method ScalarFields() returns (fs: seq<FieldBox>)
      modifies this`cache, cache
      ensures cache != null && (if old(cache) == null then fresh(cache) else cache == old(cache))
      ensures Read() == old(Read())
      ensures old(CacheFits()) ==> IsListOf(fields, Scalars, fs) && CacheFits()
      ensures Cached() == old(Cached()).(1 := Some(fs))
      ensures if old(Cached()).1.Some? then fs == old(Cached()).1.value else IsListOf(fields, Scalars, fs)
    {
      hide IsListOf, IsNativeMap, FieldBox.Read;
      var c := GetCache();
      if c.scalar.Some? {
        assert forall k :: k in fields ==> ReadAt(k) == old(ReadAt(k));
        return c.scalar.value;
      }
      fs := Select(Scalars);
      c.scalar := Some(fs);
      assert forall k :: k in fields ==> ReadAt(k) == old(ReadAt(k));
    }

    /** schema.go:150-164. */
    method PrimaryFields() returns (fs: seq<FieldBox>)
      modifies this`cache, cache
      ensures cache != null && (if old(cache) == null then fresh(cache) else cache == old(cache))
      ensures Read() == old(Read())
      ensures old(CacheFits()) ==> IsListOf(fields, Primaries, fs) && CacheFits()
      ensures Cached() == old(Cached()).(2 := Some(fs))
      ensures if old(Cached()).2.Some? then fs == old(Cached()).2.value else IsListOf(fields, Primaries, fs)
    {
      hide IsListOf, IsNativeMap, FieldBox.Read;
      var c := GetCache();
      if c.primary.Some? {
        assert forall k :: k in fields ==> ReadAt(k) == old(ReadAt(k));
        return c.primary.value;
      }
      fs := Select(Primaries);
      c.primary := Some(fs);
      assert forall k :: k in fields ==> ReadAt(k) == old(ReadAt(k));
    }
  }

  lemma SameRead(a: SchemaBox, b: SchemaBox)
    requires b.name == a.name && b.nativeName == a.nativeName && a.Keyed() && a.Rekeyed(b.fields)
    ensures b.Read() == a.Read()
  {
    hide FieldBox.Read;
    forall k | k in a.fields ensures k in b.fields && b.ReadAt(k) == a.ReadAt(k) {
      assert a.fields[k].value.name in b.fields;
      var m :| m in a.fields && a.fields[m].value.name == k && a.SameAs(b.fields[k], m);
      assert m == k;
    }
    forall c | c in b.fields ensures c in a.fields {
      var k :| k in a.fields && a.fields[k].value.name == c && a.SameAs(b.fields[c], k);
    }
    assert b.Read().fields == a.Read().fields;
  }

  // ----- lookups and what clients do with what they get -----

  /** A schema that nobody has changed: it reads as it was handed out, and its cache is right. */
  ghost predicate Intact(s: SchemaBox, was: Schema)
    reads s, s.cache, s.fields.Values, s.Relations(), if s.cache != null && s.cache.native.Some? then s.cache.native.value.Values else {}
  {
    s.Read() == was && s.CacheFits()
  }

  class Namespace {
    var schemas: map<string, SchemaBox>

    /** The objects of the registry. */
    ghost var repr: set<object>

    /** The stored schemas carry no cache, and their fields stand under their names. */
    ghost predicate Uncached()
      reads this, repr
    {
      forall n :: n in schemas ==>
        && schemas[n] in repr && schemas[n].cache == null
        && forall k :: k in schemas[n].fields ==>
             schemas[n].fields[k] in repr && schemas[n].fields[k].Within(repr) && schemas[n].fields[k].value.name == k
    }

    /** The stored schemas as values. */
    ghost predicate Reads(stored: map<string, Schema>)
      requires Uncached()
      reads this, repr
    {
      schemas.Keys == stored.Keys && forall n :: n in schemas ==> ReadOf(n) == stored[n]
    }

    ghost function ReadOf(n: string): Schema
      requires Uncached() && n in schemas
      reads this, repr
    {
      assert forall f :: f in schemas[n].fields.Values ==> f in repr;
      assert forall r :: r in schemas[n].Relations() ==> r in repr;
      schemas[n].Read()
    }

    /** namespace.go:159-166. */
    method SchemaBy(name: string) returns (s: SchemaBox?, ghost made: set<object>)
      requires Uncached()
      ensures s == null <==> name !in schemas
      ensures s != null ==> fresh(made) && s.Within(made) && s.cache == null && Intact(s, schemas[name].Read())
    {
      if name !in schemas {
        return null, {};
      }
      s, made := schemas[name].Clone();
    }
  }

  datatype Accessor = Native | Scalar | Primary

  /**
   What a client can do: look schemas up, by name or several at once; ask one it has for a list; change one it has,
   its fields and relations, or the map and the lists of fields it was given.
   */
  datatype Action =
    | Lookup(name: string)
    | LookupAll(names: seq<string>)
    | Ask(h: nat, accessor: Accessor)
    | SetField(h: nat, key: string, value: Field)
    | SetRelation(h: nat, key: string, relation: Option<Relation>)
    | EditRelation(h: nat, key: string, content: Relation)
    | DropField(h: nat, key: string)
    | Rename(h: nat, newName: string)
    | SetListed(h: nat, column: string, value: Field)
    | DropListed(h: nat, column: string)
    | PutScalar(h: nat, i: nat, value: Field)
    | PutPrimary(h: nat, i: nat, value: Field)
  {
    predicate Changes(i: nat) { !Lookup? && !LookupAll? && !Ask? && h == i }
  }

  method AskFor(s: SchemaBox, accessor: Accessor, ghost own: set<object>) returns (ghost own': set<object>)
    requires s.Within(own)
    modifies s`cache, s.cache
    ensures own <= own' && fresh(own' - own) && s.Within(own') && s.Read() == old(s.Read())
    ensures old(s.CacheFits()) ==> s.CacheFits()
  {
    if accessor == Native {
      own' := AskNative(s, own);
    } else if accessor == Scalar {
      own' := AskScalar(s, own);
    } else {
      own' := AskPrimary(s, own);
    }
  }

  method AskNative(s: SchemaBox, ghost own: set<object>) returns (ghost own': set<object>)
    requires s.Within(own)
    modifies s`cache, s.cache
    ensures own <= own' && fresh(own' - own) && s.Within(own') && s.Read() == old(s.Read())
    ensures old(s.CacheFits()) ==> s.CacheFits()
  {
    FieldsWithin(s, own);
    hide IsListOf, SchemaBox.CacheFits, SchemaBox.Read, IsNativeMap, SchemaBox.Relations, SchemaBox.ReadAt, FieldBox.Read;
    var nf := s.NativeFields();
    if old(s.Cached()).0 == None { NativesWithin(s.fields, nf, own); }
    own' := own + {s.cache};
  }

  method AskScalar(s: SchemaBox, ghost own: set<object>) returns (ghost own': set<object>)
    requires s.Within(own)
    modifies s`cache, s.cache
    ensures own <= own' && fresh(own' - own) && s.Within(own') && s.Read() == old(s.Read())
    ensures old(s.CacheFits()) ==> s.CacheFits()
  {
    FieldsWithin(s, own);
    hide IsListOf, SchemaBox.CacheFits, SchemaBox.Read, IsNativeMap, SchemaBox.Relations, SchemaBox.ReadAt, FieldBox.Read;
    var fs := s.ScalarFields();
    if old(s.Cached()).1 == None { ListedAreFields(s.fields, Scalars, fs); }
    own' := own + {s.cache};
  }

  method AskPrimary(s: SchemaBox, ghost own: set<object>) returns (ghost own': set<object>)
    requires s.Within(own)
    modifies s`cache, s.cache
    ensures own <= own' && fresh(own' - own) && s.Within(own') && s.Read() == old(s.Read())
    ensures old(s.CacheFits()) ==> s.CacheFits()
  {
    FieldsWithin(s, own);
    hide IsListOf, SchemaBox.CacheFits, SchemaBox.Read, IsNativeMap, SchemaBox.Relations, SchemaBox.ReadAt, FieldBox.Read;
    var fs := s.PrimaryFields();
    if old(s.Cached()).2 == None { ListedAreFields(s.fields, Primaries, fs); }
    own' := own + {s.cache};
  }

  lemma FieldsWithin(s: SchemaBox, own: set<object>)
    requires s.Within(own)
    ensures forall f :: f in s.fields.Values ==> f in own
  {
  }

  lemma NativesWithin(fields: map<string, FieldBox>, nf: map<string, FieldBox>, own: set<object>)
    requires IsNativeMap(fields, nf) && forall f :: f in fields.Values ==> f in own
    ensures forall c :: c in nf ==> nf[c] in own
  {
  }

  method Change(s: SchemaBox, a: Action, ghost own: set<object>) returns (ghost own': set<object>)
    requires s.Within(own)
    modifies own
    ensures own <= own' && fresh(own' - own) && s.Within(own')
  {
    own' := own;
    match a {
      case SetField(_, key, value) =>
        if key in s.fields { s.fields[key].value := value; }
      case SetRelation(_, key, relation) =>
        if key in s.fields { own' := Relate(s, key, relation, own); }
      case EditRelation(_, key, content) =>
        if key in s.fields && s.fields[key].relation != null { s.fields[key].relation.value := content; }
      case DropField(_, key) => s.fields := s.fields - {key};
      case Rename(_, newName) => s.name := newName;
      case SetListed(_, column, value) =>
        if s.cache != null && s.cache.native.Some? && column in s.cache.native.value {
          s.cache.native.value[column].value := value;
        }
      case DropListed(_, column) =>
        if s.cache != null && s.cache.native.Some? {
          s.cache.native := Some(s.cache.native.value - {column});
        }
      case PutScalar(_, i, value) => own' := PutInScalars(s, i, value, own);
      case PutPrimary(_, i, value) => own' := PutInPrimaries(s, i, value, own);
      case Lookup(_) =>
      case LookupAll(_) =>
      case Ask(_, _) =>
    }
  }

  /** The list an accessor returns is the one in the cache. */
  method PutInScalars(s: SchemaBox, i: nat, value: Field, ghost own: set<object>) returns (ghost own': set<object>)
    requires s.Within(own)
    modifies s.cache
    ensures own <= own' && fresh(own' - own) && s.Within(own')
  {
    own' := own;
    if s.cache != null && s.cache.scalar.Some? && i < |s.cache.scalar.value| {
      var f := new FieldBox(value, null);
      own' := own + {f};
      s.cache.scalar := Some(s.cache.scalar.value[i := f]);
    }
  }

  method PutInPrimaries(s: SchemaBox, i: nat, value: Field, ghost own: set<object>) returns (ghost own': set<object>)
    requires s.Within(own)
    modifies s.cache
    ensures own <= own' && fresh(own' - own) && s.Within(own')
  {
    own' := own;
    if s.cache != null && s.cache.primary.Some? && i < |s.cache.primary.value| {
      var f := new FieldBox(value, null);
      own' := own + {f};
      s.cache.primary := Some(s.cache.primary.value[i := f]);
    }
  }

  method Relate(s: SchemaBox, key: string, relation: Option<Relation>, ghost own: set<object>) returns (ghost own': set<object>)
    requires s.Within(own) && key in s.fields
    modifies s.fields[key]
    ensures own <= own' && fresh(own' - own) && s.Within(own')
  {
    own' := own;
    var box: RelationBox? := null;
    if relation.Some? {
      box := new RelationBox(relation.value);
      own' := own + {box};
    }
    s.fields[key].relation := box;
  }

  // ----- whole sessions -----

  /** The schemas handed out own different objects. */
  predicate Apart(owned: seq<set<object>>) {
    forall i, j :: 0 <= i < |owned| && 0 <= j < |owned| && i != j ==> owned[i] !! owned[j]
  }

  lemma ApartPush(owned: seq<set<object>>, made: set<object>)
    requires Apart(owned) && forall i :: 0 <= i < |owned| ==> owned[i] !! made
    ensures Apart(owned + [made])
  {
  }

  lemma ApartGrow(owned: seq<set<object>>, h: nat, own: set<object>)
    requires Apart(owned) && h < |owned| && forall i :: 0 <= i < |owned| && i != h ==> owned[i] !! own
    ensures Apart(owned[h := own])
  {
  }

  /**
   A client's session: the schemas it was handed out own different objects, and what it has not changed still equals
   the stored schema of that name.
   */
  ghost predicate Session(stored: map<string, Schema>, handles: seq<SchemaBox>, names: seq<string>,
                          owned: seq<set<object>>, touched: set<nat>, mine: set<object>)
    reads *
  {
    && |names| == |handles| == |owned| && Apart(owned)
    && (forall i :: 0 <= i < |handles| ==> owned[i] <= mine && handles[i].Within(owned[i]) && names[i] in stored)
    && forall i :: 0 <= i < |handles| && i !in touched ==> Intact(handles[i], stored[names[i]])
  }

  lemma ReadsAt(ns: Namespace, stored: map<string, Schema>, name: string)
    requires ns.Uncached() && ns.Reads(stored)
    ensures name in ns.schemas <==> name in stored
    ensures name in ns.schemas ==> ns.schemas[name].Read() == stored[name]
  {
  }

  /** A lookup leaves the session as it was. */
  method Fetch(ns: Namespace, name: string, handles: seq<SchemaBox>, ghost names: seq<string>, ghost stored: map<string, Schema>,
               ghost owned: seq<set<object>>, ghost touched: set<nat>, ghost mine: set<object>)
    returns (s: SchemaBox?, ghost made: set<object>)
    requires ns.Uncached() && ns.Reads(stored) && Session(stored, handles, names, owned, touched, mine)
    ensures Session(stored, handles, names, owned, touched, mine)
    ensures s == null <==> name !in stored
    ensures s != null ==> fresh(made) && s.Within(made) && Intact(s, stored[name])
  {
    hide Apart, IsListOf, IsNativeMap;
    ReadsAt(ns, stored, name);
    s, made := ns.SchemaBy(name);
  }

  /** And adds a clone to it. */
  method LookOne(ns: Namespace, name: string, handles: seq<SchemaBox>, names: seq<string>, ghost stored: map<string, Schema>,
                 ghost owned: seq<set<object>>, ghost touched: set<nat>, ghost mine: set<object>)
    returns (handles': seq<SchemaBox>, names': seq<string>, ghost owned': seq<set<object>>, ghost mine': set<object>)
    requires ns.Uncached() && ns.Reads(stored) && Session(stored, handles, names, owned, touched, mine)
    ensures Session(stored, handles', names', owned', touched, mine') && mine <= mine' && fresh(mine' - mine)
    ensures handles <= handles' && names' == names + if name in stored then [name] else []
  {
    hide Intact, SchemaBox.Within, Apart, SchemaBox.Read;
    handles', names', owned', mine' := handles, names, owned, mine;
    var s, made := Fetch(ns, name, handles, names, stored, owned, touched, mine);
    if s != null {
      ApartPush(owned, made);
      handles', names', owned', mine' := handles + [s], names + [name], owned + [made], mine + made;
    }
  }

  /** The names several lookups return: those asked for that are stored, all of them if none is asked for, each once. */
  ghost predicate Picked(wanted: seq<string>, stored: map<string, Schema>, picked: seq<string>) {
    && (forall n :: n in picked <==> n in stored && (wanted == [] || n in wanted))
    && forall i, j :: 0 <= i < j < |picked| ==> picked[i] != picked[j]
  }

  /** namespace.go:176-191: clones of several schemas, each on its own, in some order of the map. */
  method LookSeveral(ns: Namespace, wanted: seq<string>, handles: seq<SchemaBox>, names: seq<string>, ghost stored: map<string, Schema>,
                     ghost owned: seq<set<object>>, ghost touched: set<nat>, ghost mine: set<object>)
    returns (handles': seq<SchemaBox>, names': seq<string>, ghost owned': seq<set<object>>, ghost mine': set<object>)
    requires ns.Uncached() && ns.Reads(stored) && Session(stored, handles, names, owned, touched, mine)
    ensures Session(stored, handles', names', owned', touched, mine') && mine <= mine' && fresh(mine' - mine)
    ensures handles <= handles' && names <= names' && Picked(wanted, stored, names'[|names|..])
  {
    hide Session, Apart, Intact, SchemaBox.Within, SchemaBox.Read;
    handles', names', owned', mine' := handles, names, owned, mine;
    var order := Range(ns.schemas);
    SameNames(ns, stored, order);
    ghost var picked: seq<string> := [];
    for i := 0 to |order|
      invariant ns.Uncached() && ns.Reads(stored)
      invariant Session(stored, handles', names', owned', touched, mine') && mine <= mine' && fresh(mine' - mine)
      invariant handles <= handles' && names' == names + picked
      invariant forall n :: n in picked <==> n in order[..i] && (wanted == [] || n in wanted)
      invariant forall a, b :: 0 <= a < b < |picked| ==> picked[a] != picked[b]
    {
      assert order[..i + 1] == order[..i] + [order[i]];
      assert order[i] !in order[..i];
      if |wanted| == 0 || order[i] in wanted {
        handles', names', owned', mine' := LookOne(ns, order[i], handles', names', stored, owned', touched, mine');
        picked := picked + [order[i]];
      }
    }
    assert order[..|order|] == order;
    assert names'[|names|..] == picked;
  }

  lemma SameNames(ns: Namespace, stored: map<string, Schema>, order: seq<string>)
    requires ns.Uncached() && ns.Reads(stored) && Enumerates(order, ns.schemas)
    ensures Enumerates(order, stored)
  {
  }

  /** Asking one schema for a list leaves all of them as they were. */
  method AskOne(a: Action, handles: seq<SchemaBox>, ghost names: seq<string>, ghost stored: map<string, Schema>,
              ghost owned: seq<set<object>>, ghost touched: set<nat>, ghost mine: set<object>)
    returns (ghost own: set<object>)
    requires Session(stored, handles, names, owned, touched, mine)
    requires a.Ask? && a.h < |handles|
    modifies owned[a.h]
    ensures owned[a.h] <= own && fresh(own - owned[a.h]) && handles[a.h].Within(own)
    ensures forall i :: 0 <= i < |handles| && i != a.h ==> handles[i].Within(owned[i])
    ensures forall i :: 0 <= i < |handles| && i !in touched ==> Intact(handles[i], stored[names[i]])
  {
    hide IsListOf, IsNativeMap, Lists, AreFields, Belongs, FieldBox.Read;
    own := AskFor(handles[a.h], a.accessor, owned[a.h]);
  }

  /** Changing one schema leaves the others as they were. */
  method ChangeOne(a: Action, handles: seq<SchemaBox>, ghost names: seq<string>, ghost stored: map<string, Schema>,
              ghost owned: seq<set<object>>, ghost touched: set<nat>, ghost mine: set<object>)
    returns (ghost own: set<object>)
    requires Session(stored, handles, names, owned, touched, mine)
    requires !a.Lookup? && !a.LookupAll? && !a.Ask? && a.h < |handles|
    modifies owned[a.h]
    ensures owned[a.h] <= own && fresh(own - owned[a.h]) && handles[a.h].Within(own)
    ensures forall i :: 0 <= i < |handles| && i != a.h ==> handles[i].Within(owned[i])
    ensures forall i :: 0 <= i < |handles| && i !in touched && i != a.h ==> Intact(handles[i], stored[names[i]])
  {
    hide IsListOf, IsNativeMap;
    own := Change(handles[a.h], a, owned[a.h]);
  }

  method Step(a: Action, handles: seq<SchemaBox>, ghost names: seq<string>, ghost stored: map<string, Schema>,
              ghost owned: seq<set<object>>, ghost touched: set<nat>, ghost mine: set<object>)
    returns (ghost owned': seq<set<object>>, ghost touched': set<nat>, ghost mine': set<object>)
    requires Session(stored, handles, names, owned, touched, mine)
    requires !a.Lookup? && !a.LookupAll?
    modifies mine
    ensures Session(stored, handles, names, owned', touched', mine') && mine <= mine' && fresh(mine' - mine)
    ensures forall i :: i in touched' ==> i in touched || a.Changes(i)
  {
    hide Intact, SchemaBox.Within;
    owned', touched', mine' := owned, touched, mine;
    if a.h < |handles| {
      ghost var own;
      if a.Ask? {
        own := AskOne(a, handles, names, stored, owned, touched, mine);
      } else {
        own := ChangeOne(a, handles, names, stored, owned, touched, mine);
        touched' := touched + {a.h};
      }
      ApartGrow(owned, a.h, own);
      owned', mine' := owned[a.h := own], mine + own;
    }
  }

  /**
   Any interleaving of lookups, list accessors and changes. It modifies nothing that existed before, so no stored
   field or relation; and a returned schema that was not changed itself still equals the stored one, with a cache
   that is right.
   */
  method Run(ns: Namespace, script: seq<Action>) returns (handles: seq<SchemaBox>, names: seq<string>)
    requires ns.Uncached()
    ensures |names| == |handles| && forall i :: 0 <= i < |handles| ==> names[i] in ns.schemas
    ensures forall i :: 0 <= i < |handles| && (forall a :: a in script ==> !a.Changes(i)) ==>
              Intact(handles[i], ns.schemas[names[i]].Read())
  {
    ghost var stored := map n | n in ns.schemas :: ns.schemas[n].Read();
    ghost var touched: set<nat>;
    handles, names, touched := Actions(ns, script, stored);
    forall i | 0 <= i < |handles| ensures names[i] in ns.schemas && ns.schemas[names[i]].Read() == stored[names[i]] {
      ReadsAt(ns, stored, names[i]);
    }
  }

  method Actions(ns: Namespace, script: seq<Action>, ghost stored: map<string, Schema>)
    returns (handles: seq<SchemaBox>, names: seq<string>, ghost touched: set<nat>)
    requires ns.Uncached() && ns.Reads(stored)
    ensures ns.Uncached() && ns.Reads(stored)
    ensures |names| == |handles| && forall i :: 0 <= i < |handles| ==> names[i] in stored
    ensures forall i :: 0 <= i < |handles| && i !in touched ==> Intact(handles[i], stored[names[i]])
    ensures forall i :: i in touched ==> exists a :: a in script && a.Changes(i)
  {
    handles, names, touched := [], [], {};
    ghost var owned: seq<set<object>>, mine: set<object> := [], {};
    for n := 0 to |script|
      invariant ns.Uncached() && ns.Reads(stored) && fresh(mine)
      invariant Session(stored, handles, names, owned, touched, mine)
      invariant forall i :: i in touched ==> exists a :: a in script && a.Changes(i)
    {
      hide Session, Intact, SchemaBox.Within, Apart;
      var a := script[n];
      assert a in script;
      if a.Lookup? {
        handles, names, owned, mine := LookOne(ns, a.name, handles, names, stored, owned, touched, mine);
      } else if a.LookupAll? {
        handles, names, owned, mine := LookSeveral(ns, a.names, handles, names, stored, owned, touched, mine);
      } else {
        owned, touched, mine := Step(a, handles, names, stored, owned, touched, mine);
      }
    }
  }
}
