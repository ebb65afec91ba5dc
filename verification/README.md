# dba: a verified model of its query layer

dba is an object-relational layer for Go. It compiles conditions, rows and relation configs into SQL text with a
list of arguments, keeps a registry of schemas, creates rows in batches, fills in and reconciles related rows, and
cuts results into pages. This project models that core in Dafny, part by part, and proves what it does.

| module | what it models |
|---|---|
| `Strings`, `StringLaws`, `Maps`, `Schemas`, `Faults` | Go's string functions and unordered maps; fields, relations and schemas; calls that may fail |
| `SqlText`, `SqlTextLaws`, `SqlTextShape`, `ClosedText` | `formatSQL`: mask the string literals, collapse white space, put the literals back |
| `Tokens`, `SqlCondition`, `SqlStatement`, `NameLists` | an independent reader of SQL: tokens, conditions, UPDATE, INSERT and SELECT statements |
| `Filters`, `Conditions`, `ConditionMeaning`, `Disjunction` | filter trees with a three-valued meaning; `And`, `Or`, the shapes of their arguments and what these ask of a row |
| `Where`, `WhereProofs` | `parseWhere`, and that its text reads back as the filter tree |
| `Updates`, `Inserts`, `InsertProofs`, `Queries` | the final texts of UPDATE, INSERT and SELECT with their arguments, read back as SQL |
| `BatchExec`, `Scripts` | several statements in one text, their parameters dealt out, one transaction |
| `Ddl`, `ColumnTypes`, `TableReading` | `GenDDL` of the three drivers, the statements its text falls into, and the tables they make |
| `Creation` | `Create`: batches, the two transaction regimes, auto-increment back-fill, any pattern of failures |
| `RelationConfig`, `RelationReading`, `RelationRoundTrip` | struct tags and relation configs, parsed and rendered |
| `RegistryRuns`, `Registry`, `RegistryEnds`, `RegistryLoops` | registering and unregistering schemas, mock bridge schemas included; every order in which that may run, and when it returns |
| `Isolation` | schemas as objects: clones, caches, and clients that change what they looked up |
| `Population`, `ChildWrites` | `relatesQuery` and the `HAS_MANY` part of `relatesWrite` |
| `Float64`, `Paging` | float64 division of whole numbers; `Result`, `Count`, `Paginate` |

The database is a sequence or map of rows. Where a call to it can fail, an arbitrary oracle says which calls do, so
that what is proved holds for every pattern of failures. How a row answers a column test is an arbitrary function.
Go maps are walked in an arbitrary order. A panic is an outcome of the model.

The code is modelled as it is, also where it departs from its own comments or plain intent. Each departure is stated
exactly, most of them as the condition under which the code does what is meant:

- `formatSQL` writes literals into literals when an earlier one holds its own marker (`SqlText.FormatIsScanExactly`).
- `Or` joins its arguments with AND, filter.go:82 (`Disjunction.OrIsDisjunctionExactlyWhen`).
- `$EXISTS false` writes `<> ''` on strings, model.go:503 (`Conditions.ExistsFalseNegatesExactlyWhen`).
- Conflict values are appended once per row, model.go:241-246, and the conflict clauses that PostgreSQL and SQLite get
  name no target and use MySQL's `VALUES(column)` (`InsertProofs.InsertReadsExactlyWhen`).
- An UPDATE without values or without conditions is no SQL statement (`Updates.UpdateReadsExactlyWhen`).
- `BatchExec` commits after an error, since the error is shadowed at connection.go:109 (`BatchExec.AtomicExactlyWhen`).
- `BatchExec` cuts statements at semicolons inside literals (`Scripts.ScriptStatementsExactlyWhen`) and `extractParams`
  counts question marks inside them (`SqlTextLaws.PlaceholdersCountedExactlyWhen`).
- After a failed shared transaction the documents of its batches keep the ids of rows that were rolled back
  (`Creation.Create`).
- Populate maps are keyed by pointers, so no lookup finds a group, model.go:985-1007 and 1030-1063
  (`Population.RelatesQueryHasMany`, `Population.RelatesQueryReferencesMany`); what is meant is
  `Population.PopulateHasMany` and `Population.PopulateReferencesMany`.
- The delete of a replace write is built from submitted keys and joined by that `Or`, model.go:1288-1333
  (`ChildWrites.ReplaceIsExactWhen`); what is meant is `ChildWrites.MeantReplaceIsExact`.
- Its updates run in a transaction that only the owner of a given one ever commits, model.go:188-197
  (`ChildWrites.ReplaceWithoutCommitIsExactWhen`).
- The strategy numbers differ from the documented levels, model.go:63-68 (`ChildWrites.StrategyIsDocumentedExactlyWhen`).
- `Count` scans the first row of the ordinary query, model.go:728-748 (`Paging.CountIsRowCountExactlyWhen`,
  `Paging.CountFailsByDefault`).
- `Paginate` counts after its conditions are gone, model.go:756-762 (`Paging.TotalFitsExactlyWhen`).
- An order that is asked for is written as a grouping, model.go:583-585 (`Queries.SelectReads`).
- A field set up by hand can ask for its mock bridge for ever (`Registry.AsksForeverExactly`), and then setting relations
  does not return (`RegistryLoops.ReturnsExactlyWhen`) unless mocks may replace the schemas of such fields
  (`RegistryLoops.OwnBridgeReturns`).
- After the first pass a relation can still be marked as native (`Registry.NativeAfterPassExactlyWhen`).
- SQLite's `PRIMARY KEY` clause is written without any column, driver_sqlite.go:68, and titles go into a `COMMENT` that
  PostgreSQL does not have in a column, driver_postgres.go:64-66 (`TableReading.TableReadsExactlyWhen`).
- `Fields` trims the names it is given and then keeps them untrimmed, model.go:362-369 (`Paging.Result.Fields`).
- The words `REF_ONE` and `REF_MANY` of schema.go:503-512 are not accepted (`RelationRoundTrip.CommentWordsAreNoKinds`).

`dafny verify dfyconfig.toml` checks everything.

## Model

| member | source | states |
|---|---|---|
| StringLaws.TrimSpaceExactly | connection.go:153 | trimming leaves the text between the white space at both ends: the 25 characters of unicode.IsSpace, spelled out |
| StringLaws.CapitalOf | filter.go:59 | the characters that become a given ASCII capital |
| StringLaws.SmallOf | schema.go:556 | the characters that become a given small ASCII letter |
| StringLaws.SplitExactly | connection.go:102 | the parts of a text hold no separator and make up the text again |
| SqlText.FormatSQL | connection.go:141-161 | the mask, collapse and restore loop gives the trimmed one-pass scan of the text on exactly the marker-safe inputs |
| SqlText.RestoreIsScan | connection.go:154-157 | invariant of the restore loop: behind the restored part the markers left stand exactly where literals stood, so the loop yields the scan |
| SqlText.UnsafeDiverges | connection.go:154-157 | on every other input the result differs from the scan, with a position where they differ |
| SqlText.FormatIsScanExactly | connection.go:141-161 | formatting equals the trimmed scan if and only if nothing in front of a literal reads as a marker |
| SqlTextLaws.ScanIdempotent | connection.go:152 | scanning twice is scanning once |
| SqlTextLaws.ScanKeepsLiterals | connection.go:141-161 | the scan has the same literals, byte for byte and in order |
| SqlTextLaws.ScanCollapsesMask | connection.go:149-152 | outside the literals the scan does nothing but collapse white space |
| SqlTextLaws.FormattedKeepsLiterals | connection.go:141-161 | on marker-safe text the literals survive in order, and the text around them is the collapsed and trimmed one |
| SqlTextLaws.FormattedIdempotent | connection.go:141-161 | on marker-safe text the result is marker-safe again and formatting it changes nothing |
| SqlTextLaws.FormattedKeepsPlaceholders | connection.go:141-161 | the number of `?` outside literals is unchanged |
| SqlTextLaws.PlaceholdersCountedExactlyWhen | connection.go:126-129 | the `?` counted in a statement are its placeholders if and only if no literal holds one |
| Tokens.FormattedKeepsTokens | connection.go:141-161 | what is sent to the database has the tokens of what was written: formatting changes nothing but the white space between them |
| SqlTextLaws.NoHashIsMarkerSafe | connection.go:149 | every text without `#` is marker-safe |
| SqlTextLaws.MarkerInLiteralBreaks | connection.go:154-157 | a literal that spells the marker in front of another literal is not marker-safe: a whole failing family |
| SqlTextLaws.SpelledMarkerBreaks | connection.go:149-157 | that marker is `##STRING_LITERAL##` |
| SqlTextShape.FormattedIsWords | connection.go:149-152 | on marker-safe text the result holds, outside its literals, the words between runs of space, tab, line feed, form feed and carriage return of the trimmed text, joined by single spaces |
| SqlTextShape.FormattedIsTidy | connection.go:149-152 | so it holds no tab, line feed, form feed or carriage return there, no two spaces in a row and none at its ends |
| SqlTextShape.FirstLiteral | connection.go:141-148 | a literal goes from the first single or double quote to the next of the same kind |
| SqlTextShape.LoneQuote | connection.go:141-148 | a quote without a partner begins no literal |
| SqlTextShape.NoQuoteNoLiteral | connection.go:141-148 | nor does a text without quotes |
| Conditions.ParseEntryOpSplits | filter.go:53-64 | "key op" gives the key and the operator in capitals, a bare key means equality |
| Conditions.ParseConditions | filter.go:90-186 | string-keyed pairs give one entry list in order; otherwise each argument adds its own filters in order; a struct passed by value panics |
| Conditions.ParsePairs | filter.go:102-136 | the pair loop accepts exactly the even lists with a string at every even place, and lists their entries in order |
| Conditions.ParseArg | filter.go:139-184 | what a nil, a filter, a list, a map, a struct and anything else add, and the panic on a struct whose address cannot be taken |
| Conditions.ParseEntryList | filter.go:188-201 | the entries of a map in walking order, without blank keys and nil values |
| Conditions.And | filter.go:66-76 | nothing for no filters, otherwise one AND group of them; or the panic |
| Conditions.Or | filter.go:78-88 | the same AND group; OR stands only inside pair and map entries |
| ConditionMeaning.ParseEntryOpExactly | filter.go:53-64 | for any text: without a space inside it is the key and asks for equality; otherwise the key ends at the first space and the operator is the rest in capitals |
| ConditionMeaning.MapAccepts | filter.go:188-201 | in whatever order a map is walked, a row is kept if and only if all of its live entries, or under OR one if there are any, hold as equalities of the trimmed keys; blank keys and nil values ask nothing |
| ConditionMeaning.StructAccepts | filter.go:159-182 | the same for a struct, whose names are read as keys with operators and whose nil values count |
| ConditionMeaning.PairsAccept | filter.go:102-136 | a row is kept if and only if all pairs, or under OR one, hold: the key and operator of each string with the value behind it |
| ConditionMeaning.BuiltAccepts | filter.go:66-88 | what And or Or makes of any conditions keeps a row if and only if its pairs ask for it, or else every argument does, under Or too |
| Disjunction.ConstantItem | model.go:423-547 | a filter whose tests all get one answer from a row gives that answer, if it says anything |
| Disjunction.OneLiveIsDisjunction | filter.go:78-88 | with at most one filter that writes anything the AND group is a disjunction on every row |
| Disjunction.TwoLiveAreSeparated | filter.go:78-88 | two filters that write something and share no test: a row on which the group is false and a disjunction true |
| Disjunction.OrIsDisjunctionExactlyWhen | filter.go:78-88 | for filters that share no test the group means their disjunction on every row if and only if at most one of them writes anything |
| Disjunction.OrOfPairsIsDisjunction | filter.go:78-88 | key/value pairs do give a disjunction |
| Disjunction.OrOfTwoFiltersIsConjunction | filter.go:78-88 | two filters that disagree on a row: the group is false where a disjunction is true |
| Conditions.ExistsFalseNegatesExactlyWhen | model.go:489-506 | `$EXISTS false` negates `$EXISTS true` exactly off string fields and on NULL |
| Where.EntryClause | model.go:449-512 | text and argument of one entry, operator by operator, are those of its document |
| Where.SetItem | model.go:426-544 | the recursive loops write the text and the arguments of the tree without its empty parts, groups parenthesised |
| Where.ParseWhere | model.go:423-547 | clause and arguments are those of the AND of all filters |
| WhereProofs.ReadBack | model.go:514-543 | unique readability: parsing the printed text under SQL precedence returns exactly the tree it was printed from, with the arguments in place |
| WhereProofs.WherePreservesMeaning | model.go:423-547 | for every schema and filter tree of any depth, the written clause read with its arguments left to right has the three-valued answer of the tree on every row; nothing is written exactly when the tree says nothing |
| NameLists.PlainWordsAreNames | model.go:449-453 | which keys and native names can be read back: every word of letters, digits, underscores, dots, dollar signs and back-quotes, but for the seven keywords of conditions |
| WhereProofs.WhereTestsColumns | model.go:449-453 | the clause that is read back tests exactly the columns its keys stand for: the native name of a field that has a type and such a name, any other key itself |
| WhereProofs.PatternsShowValues | model.go:458-467 | a pattern is the text of the value, with a percent sign in front, behind or both |
| WhereProofs.ChainingKeepsClauses | model.go:310-328 | a further condition on a result becomes one more conjunct, and every earlier clause still binds as it did |
| Updates.SetList | model.go:787-809 | the SET loop, for any order of the document's keys |
| Updates.UpdateStatement | model.go:778-824 | the final text and the arguments of the whole UPDATE for some order of the document's keys |
| Updates.UpdateReadsExactlyWhen | model.go:787-824 | the final text, read as SQL with its arguments left to right, sets each column to its own value, NULL flags included, under the condition of the filters; it reads as an UPDATE at all if and only if there is something to set and the filters say something |
| Updates.UpdateSetsColumns | model.go:787-809 | assignment i that is read back sets the column key i stands for, to the value under the key or to NULL for `$$$NULL$$$`; the condition tests the columns its keys stand for |
| Inserts.ConflictUpdates | model.go:221-240 | columns and values of a conflict for some order of the map; any value that is no map, slice or the like panics |
| Inserts.InsertArguments | model.go:199-259 | the row placeholders and the flattened arguments, conflict values included |
| Inserts.RowArguments | model.go:241-259 | conflict values end up behind every row |
| Inserts.InsertArgumentAt | model.go:256-259 | argument i*cols+j is cell j of row i |
| Inserts.InsertArgumentIsField | model.go:178-186 | that argument is the value of row i in the field whose native name is column j |
| InsertProofs.InsertStatement | model.go:199-261 | the final text and the arguments of a batch for each driver, by the kind of conflict and for some order of its columns; or the panic on a conflict value |
| InsertProofs.InsertReadsExactlyWhen | model.go:199-261 | the final text, read as SQL with its arguments, inserts exactly the rows and sets every conflict column to its own value if and only if: MySQL, one row or no conflict value; SQLite, at least one column, and one row and no nil value if columns are to be set; PostgreSQL, at least one column and none to be set. Otherwise it is no INSERT of that database |
| BatchExec.Connection.BatchExec | connection.go:88-124 | what is committed, and that no error is returned if and only if the transaction begins, every statement runs and the arguments reach; a failing Begin returns one and changes nothing |
| BatchExec.Connection.RunAll | connection.go:103-122 | exactly the statements before the first failing call or the first shortage run, in order, each with its own parameters |
| BatchExec.ExtractParams | connection.go:126-139 | a slice as long as the statement has placeholders, an error exactly when the arguments do not reach |
| BatchExec.DealPartitions | connection.go:103-139 | the slices are consecutive and together the first arguments; dealing stops exactly at the first statement whose cumulative need exceeds them |
| BatchExec.NoFaultRunsPlan | connection.go:88-139 | when no call fails all that was dealt is committed, and an error is returned if and only if the statements need more arguments than there are |
| BatchExec.CommitsWhatRan | connection.go:95-124 | unless Begin or the commit fails, the k statements before the first that fails or lacks arguments are committed, each with as many arguments as it has placeholders, behind those of the statements before |
| BatchExec.AtomicExactlyWhen | connection.go:95-124 | a run is all-or-none whatever calls fail if and only if there is at most one statement or the first one alone asks for too many arguments |
| Ddl.TableLines | driver_mysql.go:30-76 | column lines and key names of one table, for any order of the field map and each driver |
| Ddl.DriverGenDDL | driver_sqlite.go:22-77 | one terminated CREATE TABLE for each schema that has a column, in the order of the names |
| Ddl.SortedNames | connection.go:64-68 | the names of the map, each once, in the byte order of strings |
| Ddl.LessExactly | connection.go:64-68 | that order: the first of two names ends where they part or has the smaller character there |
| Ddl.GenDDL | connection.go:63-70 | the script of the tables in sorted order of exactly the names of the map |
| ClosedText.ScanConcat | connection.go:141-161 | the scanner works apart on text with closed quotes and what follows it |
| Scripts.ScriptStatementsExactlyWhen | connection.go:88-108 | BatchExec cuts a script into exactly its statements, each normalised on its own, if and only if none holds a semicolon, in a literal or not |
| Ddl.GeneratedStatements | driver_postgres.go:22-83 | the generated text of any driver runs as exactly one statement per schema with a typed column, in the sorted order of their names, each the CREATE TABLE of its schema, needing no argument, for text free of semicolons, quotes, `#` and `?` |
| Ddl.ColumnsAreTypedFields | driver_mysql.go:48-50 | a field becomes a column exactly when it has a type, its own or the driver's |
| Ddl.KeyListsPrimaryColumns | driver_mysql.go:63-76 | the key lists the primary columns and nothing else |
| Ddl.EmptyKeyExactlyWhen | driver_sqlite.go:68 | a key clause without columns is written if and only if the driver is SQLite and no column is primary |
| TableReading.TableReadsExactlyWhen | driver_postgres.go:30-78 | the formatted CREATE TABLE, read back, is the table with one column per field, of its type and with its options, and the primary columns as key, if and only if: MySQL, always; PostgreSQL, no field has a title; SQLite, some field is primary. Otherwise it is no statement of that database |
| TableReading.KeyIsAmongColumns | driver_mysql.go:63-76 | every column of the key that is read back is a column of the table, up to SQLite's missing quotes |
| ColumnTypes.ColumnHoldsKind | driver_mysql.go:34-47 | the type of a column is the native type, trimmed; without one it is a type of that database for the field's kind, BIGSERIAL exactly for a counting whole number in PostgreSQL, and none for objects and arrays |
| TableReading.DefaultFits | driver_mysql.go:34-47 | every driver's own types read back as one item of a column list |
| TableReading.GeneratedScriptReads | connection.go:63-70 | the script that is generated runs as one statement per schema with a typed column, in the sorted order of their names, and each makes the table of its schema under that condition |
| Creation.ExtractRowVars | model.go:178-186 | one cell per column, the value of the field with that native name |
| Creation.BackFill | model.go:149-161 | walking from the last row back, each row of a batch gets the id it was stored under |
| Creation.CreateBatch | model.go:123-161 | one turn of the batch loop in either transaction regime; it fails if and only if one of its calls does |
| Creation.CreateBatches | model.go:115-162 | for any batch size but 0: the batches are contiguous and cover each row once, all but the last exactly that long and none empty; the loop fails if and only if a call does, and panics if and only if the size is negative and there is a row |
| Creation.Create | model.go:70-175 | it fails if and only if a call does, and panics if and only if BatchSize is negative, there is a row and no transaction failed to begin; with BatchSize n > 0 the statements insert n rows each, the last one what is left, with 0 they insert 50; shared transaction: all rows or none; otherwise a failure leaves whole batches; on success every row once, in order; in every case exactly the documents of the inserted rows carry ids, those of rows rolled back included |
| RelationConfig.SplitAndTrimSpace | tools.go:511-525 | the trimmed parts, empty ones dropped on request |
| RelationConfig.ParseTag | schema.go:543-566 | the map of a tag's entries, later ones winning |
| RelationConfig.ParseRelation | schema.go:476-540 | the relation of a config, no relation, or the panic on a bridge without parentheses |
| RelationConfig.KnownDecidesNativeOnly | schema.go:530-534 | the schemas known at parsing time decide only whether the bridge is native |
| RelationConfig.ReparseIsStable | schema.go:496-539 | parsing a config again over its own result gives the same relation |
| RelationConfig.OthersAreKept | schema.go:491-539 | what a config does not say comes from the relation the field had: field and target schema always, the bridge under a direct config; the source schema is the one given |
| RelationReading.TagEntryExactly | schema.go:549-563 | for any text: the key is what stands before the first `=`, trimmed and in small letters, and the value what stands behind it, trimmed; without an `=`, or if it comes first, the whole text is a key with the value `true` |
| RelationReading.DirectParsesExactly | schema.go:498-509 | a direct config gives a relation if and only if it holds exactly one arrow, whose two sides, trimmed, are its fields |
| RelationReading.BridgeParsesExactly | schema.go:510-534 | a bridge config panics if and only if nothing in it opens a parenthesis or nothing behind that closes one; otherwise the bridge is the text in front, native if and only if it is not known, and its items stand between the first that opens and the last that closes |
| RelationReading.SidesExactly | schema.go:517-529 | the first item gives the source side, the last one behind it that holds exactly one arrow the target side; what no item gives stays |
| RelationRoundTrip.DirectRoundTrip | schema.go:498-509 | `kind,src->dst` with any white space around its parts is parsed back as the relation it was rendered from |
| RelationRoundTrip.ManyRoundTrip | schema.go:510-534 | and so is `REFERENCES_MANY,bridge(a->b,c->d)` |
| RelationRoundTrip.RenderedRelationParses | schema.go:476-540 | any relation (a direct one without bridge parts), rendered with the constants and any white space, is parsed back from its text on a field that has only the names parseSchema gives it; the native flag is decided by the schemas known |
| RelationRoundTrip.TaggedRelationParses | schema.go:393-402 | the same from inside a tag among any other entries that do not define it after: the relation comes from the tag's text and the two names |
| RelationRoundTrip.TagRoundTrip | schema.go:543-566 | a `rel` entry is found whole among any other entries that do not define it after |
| RelationRoundTrip.ConstantsAreKinds | schema.go:46-51 | the four constants stand for the four kinds |
| RelationRoundTrip.OtherWordsAreNoRelation | schema.go:535-537 | any other word gives no relation |
| RelationRoundTrip.CommentWordsAreNoKinds | schema.go:501-512 | the short words of the comments are other words |
| Registry.Namespace.RegisterSchema | namespace.go:138-149 | it terminates; it goes through without a panic if and only if every config parses and the ends of every missing bridge exist; then the stored names are the old ones, the inputs and all bridge names, and every config has its relation; every schema that was not there is named by the config of some field and has exactly that config's two columns, required, each of the type of the field at its end; no schema of the registry is replaced by a mock; old and new registry are those of a run of `RegistryRuns.Pass` |
| Registry.Namespace.UnregisterSchema | namespace.go:151-157 | the same for what is left; a bridge still named comes back, its columns included |
| Registry.StoredExactly | namespace.go:143-145 | what is registered before relations are set: of inputs with one name the last, in place of what was there, and everything else as it was |
| Registry.WithoutExactly | namespace.go:152-154 | what is left before relations are set: every other schema as it was |
| Registry.Namespace.SetRelations | namespace.go:193-243 | one pass over a stale snapshot extends the registry by exactly its missing bridges, nested passes included, each with the two columns its config names, of the types of the fields at both ends; in a schema with relations the fields with configs lose the item types that name neither a type nor a schema, and nothing else is lost; a schema without relations stays as it is; with none missing every relation is as parsed, native flag included; it is a run of `RegistryRuns.Pass`, nested no deeper than there are bridges missing |
| Registry.Namespace.SetFieldRelations | namespace.go:196-241 | the fields of one schema, all but relation and item type unchanged |
| Registry.Namespace.SetFieldRelation | namespace.go:198-236 | one field, item types that name no schema cleared |
| Registry.Namespace.RegisterBridge | namespace.go:203-228 | the nested registration of one mock bridge, fewer bridges missing than in the caller's snapshot |
| Registry.MockStored | namespace.go:203-228 | the measure: registering a bridge the snapshot lacks leaves strictly fewer missing, even though the registry has grown since |
| Registry.MockStandsFor | namespace.go:204-226 | the schema registered for a field's bridge has the config's two names as columns and native names, both required, the target side of the type of the target field and the source side of that of the source field |
| Registry.NewSchemaSettles | namespace.go:230-240 | a pass stores a schema if and only if one of its configs gives a relation; its item types are then kept, or cleared exactly where nothing has that name |
| Registry.NativeAfterPassExactlyWhen | schema.go:530-534 | once every bridge is registered a pass leaves a relation native if and only if it names the empty bridge and no schema has that name, or names none and was native before |
| Registry.AsksForeverExactly | namespace.go:200-228 | a field asks for a mock bridge under every snapshot if and only if its config is direct and its relation carries a native bridge |
| RegistryRuns.PassHasRun | namespace.go:193-243 | every registry has a run of setting its relations, whatever depth it may nest to |
| RegistryRuns.PassDeeper | namespace.go:203-228 | a run that returns or panics is a run whatever greater depth is allowed |
| RegistryEnds.PassEnds | namespace.go:193-243 | without a field that asks for ever every run, in whatever order, ends within the depth of the missing bridges; it returns if and only if everything resolves, and then has extended the registry by bridges alone, each with the columns and types its config asks for |
| RegistryLoops.PassKeeps | namespace.go:193-243 | on any registry a run that returns has kept every schema but those named like a bridge asked for for ever; on one whose ends are all there no run panics |
| RegistryLoops.NeverReturns | namespace.go:193-243 | with a field that asks for ever, in a schema that no such bridge is named like, no run returns, in whatever order and at whatever depth |
| RegistryLoops.ReturnsExactlyWhen | namespace.go:138-149 | where no field asks for ever for a bridge named like a schema that has such a field, every run returns if and only if no field asks for ever and everything resolves; if the ends are all there, every other run nests too deep |
| RegistryLoops.OwnBridgeReturns | namespace.go:207-227 | that condition is needed: where the one field that asks for ever names its own schema as bridge, every run returns |
| Isolation.FieldBox.Clone | schema.go:240-245 | a field clone has its own relation and reads the same |
| Isolation.SchemaBox.Clone | schema.go:72-80 | a schema clone owns all it reaches but the cache pointer; each field is there under its name and reads the same, and so does the schema if its fields stood under their names |
| Isolation.SchemaBox.NativeFields | schema.go:82-92 | on a schema whose cache is right the map holds a field under every native name, and the cache stays right |
| Isolation.SchemaBox.ScalarFields | schema.go:94-106 | on a schema whose cache is right the list has every field of type string, int, float, bool or time once and nothing else, and the cache stays right |
| Isolation.SchemaBox.PrimaryFields | schema.go:150-164 | the same for the primary fields |
| Isolation.Namespace.SchemaBy | namespace.go:159-166 | a lookup returns a clone that shares nothing with the registry |
| Isolation.LookSeveral | namespace.go:176-191 | one clone for each stored schema that is asked for, or for every one if none is, in some order; they share nothing with each other or with what was handed out before |
| Isolation.Run | namespace.go:159-191 | over any interleaving of lookups, accessors and changes, of fields, relations and the returned map and lists, no stored object is modified, and a returned schema that was not changed itself still equals the stored one with a right cache |
| Population.FetchKeepsMatches | model.go:931-940 | fetching by all keys at once loses and duplicates nothing of any one key |
| Population.Group | model.go:985-998 | a key's group is the subsequence of the items with that key, in fetch order |
| Population.WriteBack | model.go:1000-1007 | each element gets the group of its key; a key without a group panics |
| Population.PopulateHasMany | model.go:972-1007 | keys by value: each element gets the nested-loop join over the whole table, in table order; it panics exactly when an element with a key has no row |
| Population.IndexTargets | model.go:1030-1038 | for any kind of map key, the last row under each key |
| Population.GroupLinks | model.go:1040-1055 | for any kind of map key, each source's targets link by link, dangling links skipped |
| Population.LinkedIsReferenced | model.go:1040-1055 | with ids compared by value these are the rows of the nested loop |
| Population.PopulateReferencesMany | model.go:1012-1064 | keys by value: each element gets its links' targets in bridge order; it panics exactly when an element with a key gets none |
| Population.RelatesQueryHasMany | model.go:985-1007 | as coded: nothing is ever populated, and it panics exactly when some element has its key |
| Population.RelatesQueryReferencesMany | model.go:1012-1064 | as coded: every link is skipped, nothing is ever populated, and it panics exactly when some element has its key |
| ChildWrites.CalcFieldStrategy | model.go:1108-1148 | 1, 2, 3 or 4 for a name in the ignore, replace, upsert or append list, the first of these that holds it; 4 for any other field with a relation, nothing for other names |
| ChildWrites.StrategyIsDocumentedExactlyWhen | model.go:63-68 | the number of a field with a relation does the same to every table as the level documented for its list if and only if no list mentions the field |
| ChildWrites.SortInputs | model.go:1257-1286 | every input goes to exactly one of create and update, in order, with its foreign key set |
| ChildWrites.DeleteKeys | model.go:1288-1304 | the keys collected are the submitted ones that differ from some stored row |
| ChildWrites.RelatesWriteHasMany | model.go:1251-1333 | the table after the steps that commit at once, and the updates left pending |
| ChildWrites.WriteAndEnd | model.go:188-197 | with a transaction that its owner commits every step counts; without one the updates are lost |
| ChildWrites.AppendChildren | model.go:1306-1313 | appending adds the new rows as children and changes no stored row |
| ChildWrites.UpsertChildren | model.go:1306-1324 | the children are then the stored ones, the new ones and the existing ones submitted; rows not named stay |
| ChildWrites.AppendedValues | model.go:1260-1313 | every new input becomes a row of its own, in order, with its values and its parent |
| ChildWrites.UpsertedValues | model.go:1260-1324 | a cell of a stored row is then what the last input that names the row gives it, the parent in the foreign key, or else what it was |
| ChildWrites.LevelsNest | model.go:1306-1333 | each level keeps what the one below did; replacing only removes rows |
| ChildWrites.OthersUntouched | model.go:45-61 | a row that no input names stays as it is at every level |
| ChildWrites.DeleteIsMeantExactlyWhen | model.go:1288-1333 | the delete removes the stored children that were not submitted if and only if there are none and the submitted keys are not one stored child and one other stored row |
| ChildWrites.ReplaceIsExactWhen | model.go:45-61 | after a replace the children are exactly the submitted ones if and only if every submitted key exists, every stored child was submitted, and they are not one stored child and one other row |
| ChildWrites.ReplaceWithoutCommitIsExactWhen | model.go:1306-1333 | without that commit the children are exactly the submitted ones if and only if the submitted keys are just those of the stored children and of new rows, and they are not one stored child and one other row |
| ChildWrites.MeantReplaceIsExact | model.go:45-61 | with stored-minus-submitted deleted instead, the children are exactly the submitted ones that exist, and other parents' rows stay |
| ChildWrites.DeleteConditionMeaning | model.go:1326-1331 | the delete condition over several keys is true only of a row equal to every one of them |
| Float64.PageCountIsExact | model.go:766 | for n below 2^53 and d up to 2^53 the ceiling of the float64 quotient, however ties round, is the exact page count |
| Float64.FloatAboveFloor | model.go:766 | above the whole part of a quotient there is a float nearer to it than the whole part, as 1/d exceeds half the spacing |
| Paging.PagesPartition | model.go:750-768 | pages 1 to the last make up the whole list; all but the last are full, the last is not empty, and beyond it there is nothing |
| Queries.LimitDenotesWindow | driver_mysql.go:144-146 | the limit lines of the three drivers, read back, denote the same window: offset left out at 0, and without effect when there is no limit |
| Queries.SelectReads | model.go:567-595 | the final text of any query, read as SQL with its arguments, selects the columns from the table under the condition of the filters, for the window of limit and offset; an order is read as a grouping |
| Paging.QueryReturnsWindow | model.go:567-627 | the final text, run on the table, returns the window of the rows the filters are true of, or their count |
| Paging.Result.And | model.go:310-318 | a condition that says something becomes one more filter behind those before it |
| Paging.Result.Or | model.go:320-328 | the same with Or's filter |
| Paging.Result.Fields | model.go:358-372 | names that are given replace those before, as they were given |
| Paging.Result.OrderBy | model.go:330-346 | names with a leading minus are descending, blank ones are skipped, later ones win |
| Paging.Result.SelectColumns | model.go:596-625 | the columns the selected names stand for, the native names of the scalar fields not left out, each once, or `*` |
| Paging.Result.ParseOrderBys | model.go:549-565 | in some order of the map, each key as the column it stands for, DESC behind it exactly if descending, as one text |
| Paging.Result.BeforeQuery | model.go:567-627 | columns, final text and arguments for the current filters, orders, fields, limit and offset |
| Paging.Result.Reset | model.go:878-885 | filters, orders, limit and offset are gone; the selected fields stay |
| Paging.Result.All | model.go:708-726 | the window of the rows the filters keep, or an error when the call fails; then everything but the selected fields is reset |
| Paging.Result.Count | model.go:728-748 | the first row of that query scanned into one int, an error where that is impossible; then everything but the selected fields is reset |
| Paging.RowCountScans | model.go:728-748 | a selected row count returns the number of matching rows whatever the limit, but an error behind an offset that a limit goes with |
| Paging.RowCounts | model.go:728-748 | the four usual spellings select the row count |
| Paging.CountFailsByDefault | model.go:728-748 | with the default columns and a table of more than one column it only ever returns an error |
| Paging.CountIsRowCountExactlyWhen | model.go:728-748 | for selections of names, `*` or a row count in any letter case: it returns the number of matching rows on every table if and only if the row count itself is selected |
| Paging.Result.Paginate | model.go:750-768 | the page of the filtered rows, with the total that Count makes of the same selection without conditions, and its exact page count for page sizes of at least 1 |
| Paging.OffsetDoesNotWrap | model.go:754 | for pages that exist the 64-bit offset is exact |
| Paging.WrapsAround | model.go:754 | any other offset is the 64-bit number with a sign that differs by a multiple of 2^64 |
| Paging.TablePagesCover | model.go:756-767 | walking through as many pages as the whole table has meets every filtered row once and in order |
| Paging.TotalFitsExactlyWhen | model.go:756-762 | for the same selections: the total is the number of filtered rows on every table if and only if the row count is selected and the conditions compile to no text |

## Left out

- Database drivers, sqlx, connection strings, logging, `autoScan`: the store is rows and a failure oracle. `Create` needs a store that reports the last id of a statement.
- Go reflection: rows and documents are maps. That `SetFieldOrKey` can loop on some Go values is not modelled.
- `text/template` and sprig: the texts of the fixed templates are written out; templates of a user's own are not modelled.
- `aio.go`, `cmd/unix`, `dba.go` and the rest of `tools.go`: dispatch, forwarding and unrelated helpers.
- Writes of HAS_ONE, REFERENCES_ONE and REFERENCES_MANY, population of HAS_ONE and REFERENCES_ONE, dotted populate paths: unsettled in the code. Population through a bridge that is a schema is the loop of HAS_MANY again.
- `parseSchema` and `parseFieldType`: registration starts from parsed schemas.
- `sync.Map` concurrency: the registry is sequential.
- `One` and `Delete` of a result: the same query text without a new property.
- Comment lines of `GenDDL` (`ignoreComments` false): `Init` does not ask for them.
- What a database makes of a GROUP BY: an arbitrary function.
- Placeholders: `?` is read as one for every driver. PostgreSQL numbers its own, and nothing in the code rewrites them.
- Conditions.ParseArg: filters and maps in the place of a value are opaque values.
- Conditions.ParsePairs: the same.
- Conditions.ParseEntryOpSplits: a letter keeps its case if its capital is outside ASCII; no operator holds one.
- RelationConfig.ParseRelation: the same; no kind holds one.
- RelationConfig.ParseTag: a letter keeps its case if its small letter is outside ASCII; no key the code asks for holds one.
- WhereProofs.WherePreservesMeaning: keys and native names are SQL names, quoted or qualified ones included; a key that is an expression is not read.
- WhereProofs.ChainingKeepsClauses: the same.
- Updates.UpdateReadsExactlyWhen: the same, for table and columns as well.
- InsertProofs.InsertReadsExactlyWhen: the same; the grammar of the conflict clauses has no target, since none is ever written.
- Queries.SelectReads: the same; selections are names, `*` or a row count.
- TableReading.TableReadsExactlyWhen: names, types and titles are free of quotes, and a type is one item of a list without the word COMMENT.
- Registry.Namespace.SetRelations: asks that fields stand under their names and that no field asks for ever; native flags are stated for passes with no bridge missing, since before that they depend on the order of maps.
- Isolation.Run: asks that stored schemas carry no cache, because clones share the pointer of one that exists. What is put into a list is a new field, not one of another schema.
- ChildWrites.RelatesWriteHasMany: one whole-number primary key that is not the foreign key, a database that does not fail, and no locks between the transaction of the updates and the deletes.
- ChildWrites.CalcFieldStrategy: the options are the lists the code reads.
- Paging.Result.All: the population after the scan is not part of it.
- Paging.Result.Reset: the cache and the populate options of a result are not modelled.
- Paging.Result.Count: selections are names, `*` or a row count; other expressions are not modelled.
- Paging.Result.Paginate: the page count for sizes below 1 is left open; a division by zero or a negative quotient is whatever the platform makes of it.
