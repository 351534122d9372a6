# GraphQL SDL validation scripts, modelled in Dafny

Two example scripts of the repository validate a GraphQL Schema Definition
Language (SDL) document. `typefieldnames/src/ts/index.ts` then lists the
object types of the schema and their fields. `directives/src/ts/index.ts`
prints the errors of a document that is expected to fail. Both scripts hold
the same `gqlParse`, `getLocation` and `printErrors`, character for
character apart from whitespace. The model defines each of them once, and
the table below cites whichever copy the row's property is stated about.

- `sdl_pipeline.dfy`, module `GqlParser`: `gqlParse`, a fail-fast pipeline of
  four library calls: `parse`, `validateSDL`, `buildSchema` and
  `validateSchema`. The calls are opaque. They are the fields of a
  `Library` value, and each returns a value or throws (`Call`). `buildSchema`
  takes the raw SDL text, as the script does, not the parsed document.
  `GqlParse` returns the script's result together with the list of calls it
  made, in order. That list is how the model states that a later call is
  never made once an earlier one has failed.
- `error_report.dfy`, module `ErrorReport`: `getLocation` and
  `printErrors`. `PrintErrors` returns the lines the script prints, in
  order. `ReadLocation` reads a location text back; it is the inverse that
  the round-trip lemma is stated against.
- `decimal.dfy`, module `Decimal`: how JavaScript writes an integral
  `number` into a string (`" Line: " + location.line`), with a reader that
  inverts it.
- `type_field_names.dfy`, module `TypeFieldNames`: `printTypeFieldNames`,
  an imperative method over the entries of the type map, in the order
  `Object.keys` returns the keys. It
  keeps the entries whose `astNode` exists and has kind
  `ObjectTypeDefinition`, and reports each kept node's name and its field
  names in declaration order. `TypeSummaries` is the function it is proved
  against.
- `wrappers.dfy`, module `Wrappers`: `Option`, for values that may be
  `null` or `undefined`.

The entries are walked in the order `Object.keys` returns the keys, which
is the order graphql-js inserted the types in, and the report is in that
order; the code never looks at source positions. The reported type name is
the AST node's `name.value`, not the map key (`TypeSummaryOfEntry` holds
for every key).

## Model

| member | source | states |
|---|---|---|
| `GqlParser.GqlParse` | typefieldnames/src/ts/index.ts:10-40 | the calls made are a non-empty prefix of parse, validateSDL, buildSchema, validateSchema; a schema is returned exactly when the error list is empty, and only after all four calls were made |
| `GqlParser.SdlErrorsStopPipeline` | typefieldnames/src/ts/index.ts:13-19 | a non-empty `validateSDL` list is returned unchanged with no schema; only parse and validateSDL are called, never buildSchema or validateSchema |
| `GqlParser.SchemaErrorsDiscardSchema` | directives/src/ts/index.ts:19-26 | a non-empty `validateSchema` list is returned unchanged and the schema that was built is not returned |
| `GqlParser.ExceptionIsSingleError` | directives/src/ts/index.ts:33-38 | a value thrown by any of the four calls, once reached, becomes the only error and no schema is returned |
| `GqlParser.StagesRunInOrder` | typefieldnames/src/ts/index.ts:12-21 | parse always runs; each later call is made if and only if every earlier call returned and validateSDL reported nothing |
| `GqlParser.SchemaOnlyWhenEveryStageIsClean` | directives/src/ts/index.ts:28-31 | the result is (no errors, schema S) if and only if parse returned, validateSDL and validateSchema returned empty lists, and buildSchema returned S |
| `GqlParser.UncalledStagesIrrelevant` | directives/src/ts/index.ts:11-20 | two libraries that return the same outcome for each call actually made, at the one argument the pipeline passes it, give the same result and the same call list, so neither a call never made nor a library function at any other argument can affect the result |
| `Decimal.NumberToString` | typefieldnames/src/ts/index.ts:104 | a number is written as a minus sign exactly when it is negative, then at least one decimal digit and nothing else, with no leading zero |
| `Decimal.NumberRoundTrip` | directives/src/ts/index.ts:79 | reading back the text written for any integer gives that integer |
| `ErrorReport.GetLocation` | directives/src/ts/index.ts:74-82 | the text is empty exactly when `locations` is null or empty |
| `ErrorReport.ReadLocationInvertsGetLocation` | typefieldnames/src/ts/index.ts:99-107 | reading the location text back yields exactly the first location, line then column, and nothing when there is none |
| `ErrorReport.GetLocationDependsOnFirstLocationOnly` | typefieldnames/src/ts/index.ts:101-104 | two errors get the same location text if and only if their first locations agree; later locations are never shown |
| `ErrorReport.ErrorLine` | typefieldnames/src/ts/index.ts:91 | an error's line starts with "Error " and its message, and ends with " Location " and its location text |
| `ErrorReport.ErrorLines` | directives/src/ts/index.ts:64-66 | one line per error, the i-th line being the line of the i-th error |
| `ErrorReport.PrintErrors` | directives/src/ts/index.ts:62-72 | exactly one "No errors" line when there are no errors, otherwise the error lines in list order |
| `ErrorReport.NoErrorsExactlyWhenSchemaIsBuilt` | typefieldnames/src/ts/index.ts:88-97 | on a pipeline result, the printed lines are the single "No errors" line if and only if a schema was returned |
| `TypeFieldNames.PrintTypeFieldNames` | typefieldnames/src/ts/index.ts:43-67 | the loops over the type map and over each node's fields produce exactly `TypeSummaries(typeMap)` |
| `TypeFieldNames.ObjectTypeNodes` | typefieldnames/src/ts/index.ts:45-55 | at most one node per entry, and every kept node has kind `ObjectTypeDefinition` |
| `TypeFieldNames.ObjectTypeNodesMembership` | typefieldnames/src/ts/index.ts:47-55 | a node is collected if and only if some entry has it as its AST node and it has kind `ObjectTypeDefinition` |
| `TypeFieldNames.FieldNames` | typefieldnames/src/ts/index.ts:61-65 | one name per field, the i-th name being the name of the i-th field |
| `TypeFieldNames.Summaries` | typefieldnames/src/ts/index.ts:57-66 | one summary per collected node, in the same order, each with the node's name and field names |
| `TypeFieldNames.TypeSummariesAppend` | typefieldnames/src/ts/index.ts:47 | the report keeps the type map's order: the report of two runs of entries is the first run's report followed by the second's |
| `TypeFieldNames.TypeSummaryOfEntry` | typefieldnames/src/ts/index.ts:52-53 | a single entry is reported, under its node's name whatever its key, with all its field names, exactly when its AST node exists and defines an object type, and contributes nothing otherwise |
| `TypeFieldNames.TypeSummariesMembership` | typefieldnames/src/ts/index.ts:44-66 | a summary is reported if and only if some entry is an object type whose node has that name and those field names |
| `TypeFieldNames.NonObjectEntriesAreDropped` | typefieldnames/src/ts/index.ts:50-52 | entries that are not object types, such as built-in types without an AST node, leave the report unchanged wherever they appear |

## Left out

- The internals of `parse`, `validateSDL`, `buildSchema` and `validateSchema` of the `graphql` package: they are opaque functions; no GraphQL validation rule is modelled.
- `gqlSchema.getTypeMap()` (typefieldnames/src/ts/index.ts:44): the method takes the type map's entries directly.
- Console output: `console.log` in the `catch` blocks and all printing; `PrintErrors` and `PrintTypeFieldNames` return what would be printed (records for the type report, not the text lines).
- The demo SDL constants and the top-level calls that run the scripts (typefieldnames/src/ts/index.ts:69-86 and 108-115, directives/src/ts/index.ts:41-60 and 83-85).
- The caught exception is stored raw. The model gives it the same element type as the reported errors, so `printErrors` reads its `message` and `locations` like any other error. A thrown value that is not an object with `message` and `locations` is not modelled.
- Decimal.NumberToString: models integral numbers only; the exponent notation JavaScript uses from 10^21 upwards and fractional numbers are not modelled, since line and column numbers are small positive integers.
- The WebSocket and HTTP server in graphql-ws/ (routing and the subscription protocol live in the `graphql-http` and `graphql-ws` packages, which are not part of this model) and its network I/O.
