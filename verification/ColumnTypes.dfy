/** The types that GenDDL gives to columns without a type of their own, read back as the kinds of fields they hold. */
module ColumnTypes {
  import opened Strings
  import opened Schemas
  import opened Ddl

  /** The kind of field a MySQL column type of this package holds. */
  predicate MySqlHolds(t: string, kind: string) {
    || (t == "TEXT" && kind == "string") || (t == "BIGINT" && kind == "int") || (t == "DOUBLE" && kind == "float")
    || (t == "TINYINT(1)" && kind == "bool") || (t == "DATETIME(3)" && kind == "time")
  }

  /** In PostgreSQL a BIGSERIAL counts by itself. */
  predicate PostgresHolds(t: string, kind: string, counts: bool) {
    || (t == "TEXT" && kind == "string") || (t == (if counts then "BIGSERIAL" else "BIGINT") && kind == "int")
    || (t == "DOUBLE PRECISION" && kind == "float") || (t == "BOOLEAN" && kind == "bool")
    || (t == "TIMESTAMP WITH TIME ZONE" && kind == "time")
  }

  /** SQLite keeps truth values as whole numbers. */
  predicate SqliteHolds(t: string, kind: string) {
    || (t == "TEXT" && kind == "string") || (t == "INTEGER" && (kind == "int" || kind == "bool"))
    || (t == "REAL" && kind == "float") || (t == "DATETIME" && kind == "time")
  }

  predicate TypeHolds(d: Dialect, t: string, kind: string, counts: bool) {
    match d
    case MySQL => MySqlHolds(t, kind)
    case Postgres => PostgresHolds(t, kind, counts)
    case SQLite => SqliteHolds(t, kind)
  }

  /** The five kinds that have a type of their own. */
  predicate HasDefault(kind: string) { kind == "string" || kind == "int" || kind == "float" || kind == "bool" || kind == "time" }

  /**
   A field without a native type gets a column type that holds exactly its kind, and no column if it is an object, an
   array or nothing at all; one with a native type keeps that, trimmed.
   */
  lemma ColumnHoldsKind(d: Dialect, f: Field, t: string)
    requires t == ColumnType(d, f)
    ensures TrimSpace(f.nativeType) != "" ==> t == TrimSpace(f.nativeType)
    ensures TrimSpace(f.nativeType) == "" && HasDefault(f.typ) ==> TypeHolds(d, t, f.typ, f.isAutoIncrement)
    ensures TrimSpace(f.nativeType) == "" && !HasDefault(f.typ) ==> t == ""
  {
    hide TrimSpace, MySqlHolds, PostgresHolds, SqliteHolds, HasDefault, DefaultType;
    match d {
      case MySQL => MySqlType(f);
      case Postgres => PostgresType(f);
      case SQLite => SqliteType(f);
    }
  }

  lemma MySqlType(f: Field)
    ensures HasDefault(f.typ) ==> MySqlHolds(DefaultType(MySQL, f), f.typ)
    ensures !HasDefault(f.typ) ==> DefaultType(MySQL, f) == ""
  {
  }

  lemma PostgresType(f: Field)
    ensures HasDefault(f.typ) ==> PostgresHolds(DefaultType(Postgres, f), f.typ, f.isAutoIncrement)
    ensures !HasDefault(f.typ) ==> DefaultType(Postgres, f) == ""
  {
  }

  lemma SqliteType(f: Field)
    ensures HasDefault(f.typ) ==> SqliteHolds(DefaultType(SQLite, f), f.typ)
    ensures !HasDefault(f.typ) ==> DefaultType(SQLite, f) == ""
  {
  }
}
