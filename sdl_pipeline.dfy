/** `gqlParse`: the fail-fast pipeline that turns SDL text into a schema or a
    list of errors. The four calls into the GraphQL library (`parse`,
    `validateSDL`, `buildSchema`, `validateSchema`) are opaque: they are the
    fields of a `Library` value, and each one either returns or throws. */
module GqlParser {
  import opened Wrappers

  /** The outcome of one library call: a value, or a thrown exception. */
  datatype Call<+T, +Err> = Returned(value: T) | Threw(exception: Err)

  /** The four library calls the pipeline makes. `buildSchema` reads the raw
      SDL text, not the document that `parse` produced. */
  datatype Library<!Doc, !Schema, Err> = Library(
    parse: string -> Call<Doc, Err>,
    validateSDL: Doc -> Call<seq<Err>, Err>,
    buildSchema: string -> Call<Schema, Err>,
    validateSchema: Schema -> Call<seq<Err>, Err>)

  /** The library calls, named after the function each one invokes. */
  datatype Stage = Parse | ValidateSDL | BuildSchema | ValidateSchema

  /** Every call, in the order the pipeline makes them. */
  const AllStages: seq<Stage> := [Parse, ValidateSDL, BuildSchema, ValidateSchema]

  /** `IGQLParserResult`: the errors and, when there are none, the schema. */
  datatype ParserResult<Schema, Err> = ParserResult(errors: seq<Err>, gqlSchema: Option<Schema>)

  /** One run of the pipeline: its result and the library calls it made, in order. */
  datatype Run<Schema, Err> = Run(result: ParserResult<Schema, Err>, calls: seq<Stage>)

  /** A result that carries a stage's errors and no schema. */
  function Rejected<Schema, Err>(errors: seq<Err>): ParserResult<Schema, Err> {
    ParserResult(errors, None)
  }

  /** What the `catch` block returns: the thrown value as the only error. */
  function Caught<Schema, Err>(e: Err): ParserResult<Schema, Err> {
    ParserResult([e], None)
  }

  /** `gqlParse(gql)`. The calls made are always a non-empty prefix of
      `AllStages`, and a schema is returned exactly when the error list is
      empty, which happens only after every call has been made. */
  function GqlParse<Doc, Schema, Err>(lib: Library<Doc, Schema, Err>, gql: string): (run: Run<Schema, Err>)
    ensures 1 <= |run.calls| <= |AllStages| && run.calls == AllStages[..|run.calls|]
    ensures run.result.gqlSchema.Some? <==> run.result.errors == []
    ensures run.result.gqlSchema.Some? ==> run.calls == AllStages
  {
    match lib.parse(gql)
    case Threw(e) => Run(Caught(e), [Parse])
    case Returned(document) =>
      match lib.validateSDL(document)
      case Threw(e) => Run(Caught(e), [Parse, ValidateSDL])
      case Returned(errors) =>
        if |errors| > 0 then Run(Rejected(errors), [Parse, ValidateSDL])
        else
          match lib.buildSchema(gql)
          case Threw(e) => Run(Caught(e), [Parse, ValidateSDL, BuildSchema])
          case Returned(gqlSchema) =>
            match lib.validateSchema(gqlSchema)
            case Threw(e) => Run(Caught(e), AllStages)
            case Returned(validationErrors) =>
              if |validationErrors| > 0 then Run(Rejected(validationErrors), AllStages)
              else Run(ParserResult([], Some(gqlSchema)), AllStages)
  }

  /** `parse` returned a document and `validateSDL` found nothing wrong in it. */
  predicate DocumentIsValid<Doc, Schema, Err>(lib: Library<Doc, Schema, Err>, gql: string) {
    lib.parse(gql).Returned? && lib.validateSDL(lib.parse(gql).value) == Returned([])
  }

  /** Errors from `validateSDL` are returned as they are, with no schema, and
      `buildSchema` is never called. */
  lemma SdlErrorsStopPipeline<Doc, Schema, Err>(lib: Library<Doc, Schema, Err>, gql: string, errors: seq<Err>)
    requires lib.parse(gql).Returned?
    requires lib.validateSDL(lib.parse(gql).value) == Returned(errors) && |errors| > 0
    ensures GqlParse(lib, gql).result == ParserResult(errors, None)
    ensures GqlParse(lib, gql).calls == [Parse, ValidateSDL]
    ensures BuildSchema !in GqlParse(lib, gql).calls && ValidateSchema !in GqlParse(lib, gql).calls
  {
  }

  /** Errors from `validateSchema` are returned as they are; the schema that
      was built is discarded. */
  lemma SchemaErrorsDiscardSchema<Doc, Schema, Err>(lib: Library<Doc, Schema, Err>, gql: string, schema: Schema, errors: seq<Err>)
    requires DocumentIsValid(lib, gql)
    requires lib.buildSchema(gql) == Returned(schema)
    requires lib.validateSchema(schema) == Returned(errors) && |errors| > 0
    ensures GqlParse(lib, gql).result == ParserResult(errors, None)
    ensures GqlParse(lib, gql).calls == AllStages
  {
  }

  /** A value thrown by any of the four calls becomes the single error of
      the result, and no schema is returned. */
  lemma ExceptionIsSingleError<Doc, Schema, Err>(lib: Library<Doc, Schema, Err>, gql: string, e: Err)
    requires
      || lib.parse(gql) == Threw(e)
      || (lib.parse(gql).Returned? && lib.validateSDL(lib.parse(gql).value) == Threw(e))
      || (DocumentIsValid(lib, gql) && lib.buildSchema(gql) == Threw(e))
      || (DocumentIsValid(lib, gql) && lib.buildSchema(gql).Returned?
          && lib.validateSchema(lib.buildSchema(gql).value) == Threw(e))
    ensures GqlParse(lib, gql).result == ParserResult([e], None)
  {
  }

  /** The calls run in order, and each one is made exactly when every
      earlier call returned without errors. */
  lemma StagesRunInOrder<Doc, Schema, Err>(lib: Library<Doc, Schema, Err>, gql: string)
    ensures Parse in GqlParse(lib, gql).calls
    ensures ValidateSDL in GqlParse(lib, gql).calls <==> lib.parse(gql).Returned?
    ensures BuildSchema in GqlParse(lib, gql).calls <==> DocumentIsValid(lib, gql)
    ensures ValidateSchema in GqlParse(lib, gql).calls <==>
      DocumentIsValid(lib, gql) && lib.buildSchema(gql).Returned?
  {
  }

  /** A schema is returned exactly when every call returned and neither
      validator reported an error; it is then the schema `buildSchema` built
      and the error list is empty. */
  lemma SchemaOnlyWhenEveryStageIsClean<Doc, Schema, Err>(lib: Library<Doc, Schema, Err>, gql: string, schema: Schema)
    ensures GqlParse(lib, gql).result == ParserResult([], Some(schema)) <==>
      && DocumentIsValid(lib, gql)
      && lib.buildSchema(gql) == Returned(schema)
      && lib.validateSchema(schema) == Returned([])
  {
  }

  /** The result depends only on the calls actually made, each at the one
      argument the pipeline passes it: two libraries that return the same
      outcomes for those calls give the same run, so a call that is not made,
      or a library function at any other argument, has no effect. */
  lemma UncalledStagesIrrelevant<Doc, Schema, Err>(lib: Library<Doc, Schema, Err>, other: Library<Doc, Schema, Err>, gql: string)
    requires other.parse(gql) == lib.parse(gql)
    requires ValidateSDL in GqlParse(lib, gql).calls ==>
      other.validateSDL(lib.parse(gql).value) == lib.validateSDL(lib.parse(gql).value)
    requires BuildSchema in GqlParse(lib, gql).calls ==> other.buildSchema(gql) == lib.buildSchema(gql)
    requires ValidateSchema in GqlParse(lib, gql).calls ==>
      other.validateSchema(lib.buildSchema(gql).value) == lib.validateSchema(lib.buildSchema(gql).value)
    ensures GqlParse(other, gql) == GqlParse(lib, gql)
  {
  }
}
