/** `getLocation` and `printErrors`: how a result's errors are rendered.
    The console is not modelled; `PrintErrors` returns the lines it would
    print, in order. */
module ErrorReport {
  import opened Wrappers
  import opened Decimal
  import opened GqlParser

  /** A `SourceLocation` of graphql-js: 1-based line and column. */
  datatype Location = Location(line: int, column: int)

  /** The two properties of a `GraphQLError` that the scripts read;
      `locations` is `None` when it is `null` or `undefined`. */
  datatype GraphQLError = GraphQLError(message: string, locations: Option<seq<Location>>)

  const LinePrefix: string := " Line: "
  const ColumnInfix: string := " Column: "
  const NoErrorsLine: string := "No errors"

  /** The location `getLocation` reports, if any: the first one. */
  function FirstLocation(error: GraphQLError): Option<Location> {
    if error.locations.Some? && |error.locations.value| > 0 then Some(error.locations.value[0])
    else None
  }

  /** `getLocation(error)`: empty when there is no location, otherwise the
      line and then the column of the first location. */
  function GetLocation(error: GraphQLError): (text: string)
    ensures text == "" <==> FirstLocation(error).None?
  {
    if error.locations.Some? && |error.locations.value| > 0 then
      var location := error.locations.value[0];
      LinePrefix + NumberToString(location.line) + ColumnInfix + NumberToString(location.column)
    else ""
  }

  /** The index of the first space in `s`, or `|s|` when there is none. */
  function SpaceIndex(s: string): (k: nat)
    ensures k <= |s|
  {
    if s == [] || s[0] == ' ' then 0 else 1 + SpaceIndex(s[1..])
  }

  /** Reads back the text `GetLocation` writes: the line, then the column. */
  function ReadLocation(text: string): Option<Location> {
    if |text| < |LinePrefix| || text[..|LinePrefix|] != LinePrefix then None
    else
      var rest := text[|LinePrefix|..];
      var k := SpaceIndex(rest);
      var tail := rest[k..];
      if |tail| < |ColumnInfix| || tail[..|ColumnInfix|] != ColumnInfix then None
      else
        match (ParseNumber(rest[..k]), ParseNumber(tail[|ColumnInfix|..]))
        case (Some(line), Some(column)) => Some(Location(line, column))
        case _ => None
  }

  lemma {:induction false} SpaceIndexOfConcat(a: string, b: string)
    requires forall i :: 0 <= i < |a| ==> a[i] != ' '
    requires |b| > 0 && b[0] == ' '
    ensures SpaceIndex(a + b) == |a|
  {
    if a != [] {
      assert (a + b)[1..] == a[1..] + b;
      SpaceIndexOfConcat(a[1..], b);
    }
  }

  /** `GetLocation` loses nothing of the first location and reads nothing
      else: reading its text back gives exactly `FirstLocation`. */
  lemma ReadLocationInvertsGetLocation(error: GraphQLError)
    ensures ReadLocation(GetLocation(error)) == FirstLocation(error)
  {
    if FirstLocation(error).Some? {
      var location := FirstLocation(error).value;
      var line, column := NumberToString(location.line), NumberToString(location.column);
      var text := GetLocation(error);
      assert text == LinePrefix + (line + (ColumnInfix + column));
      var rest := text[|LinePrefix|..];
      assert rest == line + (ColumnInfix + column);
      SpaceIndexOfConcat(line, ColumnInfix + column);
      assert rest[..|line|] == line;
      assert rest[|line|..] == ColumnInfix + column;
      assert (ColumnInfix + column)[|ColumnInfix|..] == column;
      NumberRoundTrip(location.line);
      NumberRoundTrip(location.column);
    }
  }

  /** Two errors render the same location exactly when their first
      locations agree. */
  lemma GetLocationDependsOnFirstLocationOnly(error: GraphQLError, other: GraphQLError)
    ensures GetLocation(error) == GetLocation(other) <==> FirstLocation(error) == FirstLocation(other)
  {
    ReadLocationInvertsGetLocation(error);
    ReadLocationInvertsGetLocation(other);
  }

  /** The line printed for one error: its message, then its location text. */
  function ErrorLine(error: GraphQLError): (line: string)
    ensures |line| == 16 + |error.message| + |GetLocation(error)|
    ensures line[..6 + |error.message|] == "Error " + error.message
    ensures line[6 + |error.message|..] == " Location " + GetLocation(error)
  {
    "Error " + error.message + " Location " + GetLocation(error)
  }

  /** The lines of the `errors.map(...)` call: one per error, in order. */
  function ErrorLines(errors: seq<GraphQLError>): (lines: seq<string>)
    ensures |lines| == |errors|
    ensures forall i :: 0 <= i < |errors| ==> lines[i] == ErrorLine(errors[i])
  {
    if errors == [] then [] else [ErrorLine(errors[0])] + ErrorLines(errors[1..])
  }

  /** `printErrors(result)`: a single "No errors" line when there are no
      errors, otherwise one line per error in list order. */
  function PrintErrors<Schema>(result: ParserResult<Schema, GraphQLError>): (lines: seq<string>)
    ensures result.errors == [] ==> lines == [NoErrorsLine]
    ensures result.errors != [] ==> lines == ErrorLines(result.errors)
  {
    if |result.errors| > 0 then ErrorLines(result.errors) else [NoErrorsLine]
  }

  /** The printed lines say "No errors" exactly when the pipeline returned
      a schema. */
  lemma NoErrorsExactlyWhenSchemaIsBuilt<Doc, Schema>(lib: Library<Doc, Schema, GraphQLError>, gql: string)
    ensures PrintErrors(GqlParse(lib, gql).result) == [NoErrorsLine] <==> GqlParse(lib, gql).result.gqlSchema.Some?
  {
  }
}
