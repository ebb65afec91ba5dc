/** schema.go: the parts of fields, relations and schemas that the modelled code reads. */
module Schemas {
  import opened Strings

  const STRING: string := "string"
  const INTEGER: string := "int"
  const FLOAT: string := "float"
  const BOOLEAN: string := "bool"
  const TIME: string := "time"
  const OBJECT: string := "object"
  const ARRAY: string := "array"

  /** The three drivers. */
  datatype Dialect = MySQL | Postgres | SQLite

  datatype RelationKind = NoKind | HasOne | HasMany | ReferencesOne | ReferencesMany

  datatype Relation = Relation(
    kind: RelationKind, field: string,
    srcSchema: string, srcField: string, dstSchema: string, dstField: string,
    brgSchema: string, brgSrcField: string, brgDstField: string, brgIsNative: bool)

  datatype Field = Field(
    name: string, nativeName: string, typ: string, itemType: string, nativeType: string, title: string,
    relation: Option<Relation>, relationConfig: string,
    isPrimary: bool, isUnsigned: bool, isAutoIncrement: bool, requiredConfig: string)
  {
    predicate Valid() { typ != "" }

    predicate IsScalarType() { typ in {STRING, INTEGER, FLOAT, BOOLEAN, TIME} }

    predicate IsRequired() { requiredConfig != "" }
  }

  datatype Schema = Schema(name: string, nativeName: string, fields: map<string, Field>)

  /** The column a key stands for: the native name of a valid field, or else the key itself. */
  function Column(sch: Schema, key: string): string {
    if key in sch.fields && sch.fields[key].Valid() && sch.fields[key].nativeName != ""
    then sch.fields[key].nativeName else key
  }

  /** The column a key has to stand for: the native name of a field that has a type and such a name, or else the key. */
  predicate Denotes(sch: Schema, key: string, col: string) {
    if key in sch.fields && sch.fields[key].typ != "" && sch.fields[key].nativeName != ""
    then col == sch.fields[key].nativeName else col == key
  }

  predicate IsStringField(sch: Schema, key: string) {
    key in sch.fields && sch.fields[key].typ == STRING
  }
}
