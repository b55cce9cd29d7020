/** One cleaned row to one catalog document (`parseTablesMap`, `mapToTest`,
    `processMasterTestCsv`). */
module Normalize {
  import opened Options
  import opened JsText
  import opened JsNumbers
  import opened FreshIds
  import opened Columns
  import opened Ranges

  /** What `JSON.parse` returns for a text that starts with `{` or `[`: an
      array (its elements kept as opaque text) or an object. For an object
      only one thing is observable here: whether `object.length > 0` holds,
      which is true when the object carries a positive `length` member. */
  datatype JsonValue = JArray(items: seq<string>) | JObject(lengthAboveZero: bool)

  /** `JSON.parse(text)` either throws or returns a value. */
  datatype JsonParse = Malformed | Parsed(value: JsonValue)

  /** `tables.length > 0` */
  predicate HasEntries(v: JsonValue) {
    match v
    case JArray(items) => |items| > 0
    case JObject(lengthAboveZero) => lengthAboveZero
  }

  predicate StartsWithBracket(text: string) {
    |text| > 0 && (text[0] == '{' || text[0] == '[')
  }

  /** `parseTablesMap(text)`, with `JSON.parse` passed in as `parse`: the empty
      array for an empty text, for a text that does not start with `{` or `[`,
      and when parsing throws; the parsed value otherwise. */
  function ParseTablesMap(text: string, parse: string -> JsonParse): (tables: JsonValue)
    ensures !StartsWithBracket(text) ==> tables == JArray([])
    ensures StartsWithBracket(text) && parse(text).Malformed? ==> tables == JArray([])
    ensures StartsWithBracket(text) && parse(text).Parsed? ==> tables == parse(text).value
    ensures HasEntries(tables) ==> StartsWithBracket(text) && parse(text) == Parsed(tables)
  {
    if text == [] then JArray([])
    else if StartsWithBracket(text) then
      match parse(text)
      case Malformed => JArray([])
      case Parsed(v) => v
    else JArray([])
  }

  /** The `masterTest` object built by `mapToTest`. Exactly one of
      `interpretation` and `patientFriendlyInterpretation` is set. */
  datatype MasterTest = MasterTest(
    resultType: string,
    units: string,
    referenceRanges: seq<ReferenceRange>,
    specimen: string,
    intro: string,
    sampleCollectionTime: string,
    testEnvironmentTemp: string,
    methodology: string,
    calculationFormulae: string,
    testId: string,
    componentId: string,
    testGroup: string,
    componentName: string,
    derivationType: string,
    ordering: int,
    interpretation: Option<JsonValue>,
    patientFriendlyInterpretation: Option<string>)

  /** The document `mapToTest` returns, with the schema's snake_case keys;
      `kind` is the document's `type` key. */
  datatype TestEntry = TestEntry(
    id: string,
    name: string,
    component_name: string,
    master_test: MasterTest,
    test_id: string,
    component_id: string,
    test_group: string,
    ordering: int,
    kind: string)

  /** `parseInt(record.ordering) || 0` */
  function OrderingOf(row: Row): int {
    IntOrZero(Field(row, "ordering"))
  }

  /** The interpretation half of `mapToTest`: the parsed tables when they
      have entries, otherwise the cell's text as free text. */
  function Interpretation(text: string, parse: string -> JsonParse): (r: (Option<JsonValue>, Option<string>))
    // exactly one of the two is set, the structured one when the cell parses to something with entries
    ensures r.0.Some? != r.1.Some?
    ensures r.0.Some? <==> StartsWithBracket(text) && parse(text).Parsed? && HasEntries(parse(text).value)
    ensures r.0.Some? ==> parse(text) == Parsed(r.0.value)
    ensures r.1.Some? ==> r.1.value == text
  {
    var tables := ParseTablesMap(text, parse);
    if HasEntries(tables) then (Some(tables), None) else (None, Some(text))
  }

  /** The `masterTest` object `mapToTest` builds from a row. */
  function MasterOf(row: Row, parse: string -> JsonParse): MasterTest {
    var interpretation := Interpretation(Field(row, "patientFriendlyInterpretation"), parse);
    MasterTest(
      Field(row, "resultType"),
      Field(row, "units"),
      CreateReferenceRanges(row),
      Field(row, "specimenType"),
      Field(row, "medicineIntro"),
      Field(row, "sampleCollectionTime"),
      Field(row, "testEnvironmentTemp"),
      Field(row, "methodology"),
      Field(row, "calculationFormula"),
      Field(row, "testId"),
      Field(row, "componentId"),
      Field(row, "testGroup"),
      Field(row, "component"),
      Field(row, "derivationType"),
      OrderingOf(row),
      interpretation.0,
      interpretation.1)
  }

  /** `mapToTest(record)`, with the `uuidv4()` it calls passed in as `id`.
      The document repeats the identity fields of its nested object. */
  function MapToTest(row: Row, id: string, parse: string -> JsonParse): (t: TestEntry)
    ensures t.id == id
    ensures t.master_test.interpretation.Some? != t.master_test.patientFriendlyInterpretation.Some?
    ensures var text := Field(row, "patientFriendlyInterpretation");
            t.master_test.interpretation.Some? <==>
              StartsWithBracket(text) && parse(text).Parsed? && HasEntries(parse(text).value)
    ensures t.master_test.interpretation.Some? ==>
              parse(Field(row, "patientFriendlyInterpretation")) == Parsed(t.master_test.interpretation.value)
    ensures t.master_test.patientFriendlyInterpretation.Some? ==>
              t.master_test.patientFriendlyInterpretation.value == Field(row, "patientFriendlyInterpretation")
    // every field comes from the cell of the same meaning, "" when absent
    ensures t.name == Field(row, "testName") && t.kind == Field(row, "resultType")
    ensures t.test_id == Field(row, "testId") && t.component_id == Field(row, "componentId")
    ensures t.test_group == Field(row, "testGroup") && t.component_name == Field(row, "component")
    ensures t.ordering == OrderingOf(row)
    ensures t.ordering == t.master_test.ordering
    ensures t.test_id == t.master_test.testId && t.component_id == t.master_test.componentId
    ensures t.test_group == t.master_test.testGroup && t.component_name == t.master_test.componentName
    ensures t.kind == t.master_test.resultType
    ensures var m := t.master_test;
            m.units == Field(row, "units") && m.specimen == Field(row, "specimenType")
            && m.intro == Field(row, "medicineIntro") && m.sampleCollectionTime == Field(row, "sampleCollectionTime")
            && m.testEnvironmentTemp == Field(row, "testEnvironmentTemp") && m.methodology == Field(row, "methodology")
            && m.calculationFormulae == Field(row, "calculationFormula") && m.derivationType == Field(row, "derivationType")
    ensures t.master_test.referenceRanges == CreateReferenceRanges(row)
  {
    var master := MasterOf(row, parse);
    TestEntry(
      id,
      Field(row, "testName"),
      master.componentName,
      master,
      master.testId,
      master.componentId,
      master.testGroup,
      master.ordering,
      master.resultType)
  }

  /** The ordering stored is the leading integer of the cell, with its sign:
      a cell written as a number followed by anything that is not a digit
      reads back as that number. */
  lemma OrderingReadsLeadingNumber(row: Row, n: int, rest: string)
    requires Field(row, "ordering") == IntToDecimal(n) + rest
    requires rest == [] || !IsDecDigit(rest[0])
    requires n != 0 || rest == [] || (rest[0] != 'x' && rest[0] != 'X')
    ensures OrderingOf(row) == n
  {
    ParseIntLeadingNumber(n, rest);
  }

  /** An absent ordering cell, or one where no digit follows the white space
      and the optional sign ("none", "N/A", "-"), stores 0. */
  lemma OrderingDefaultsToZero(row: Row)
    requires Magnitude(Field(row, "ordering")) == [] || !IsDecDigit(Magnitude(Field(row, "ordering"))[0])
    ensures OrderingOf(row) == 0
  {
    NaNIffNoLeadingDigit(Field(row, "ordering"));
  }

  /** A plain-text interpretation cell (one that does not start with `{` or
      `[`) is stored as free text whatever the JSON parser would say. */
  lemma FreeTextInterpretation(row: Row, id: string, parse: string -> JsonParse)
    requires !StartsWithBracket(Field(row, "patientFriendlyInterpretation"))
    ensures MapToTest(row, id, parse).master_test.interpretation == None
    ensures MapToTest(row, id, parse).master_test.patientFriendlyInterpretation
            == Some(Field(row, "patientFriendlyInterpretation"))
  {
  }

  /** A cell holding a non-empty JSON array is stored as the structured
      interpretation, and no free text is kept. */
  lemma ArrayInterpretation(row: Row, id: string, parse: string -> JsonParse, items: seq<string>)
    requires StartsWithBracket(Field(row, "patientFriendlyInterpretation"))
    requires parse(Field(row, "patientFriendlyInterpretation")) == Parsed(JArray(items))
    requires |items| > 0
    ensures MapToTest(row, id, parse).master_test.interpretation == Some(JArray(items))
    ensures MapToTest(row, id, parse).master_test.patientFriendlyInterpretation == None
  {
  }

  /** Malformed JSON, an empty array and a plain object (one without a
      positive `length` member) all fall back to free text. */
  lemma FallbackInterpretation(row: Row, id: string, parse: string -> JsonParse)
    requires var p := parse(Field(row, "patientFriendlyInterpretation"));
             p.Malformed? || p == Parsed(JArray([])) || p == Parsed(JObject(false))
    ensures MapToTest(row, id, parse).master_test.interpretation == None
    ensures MapToTest(row, id, parse).master_test.patientFriendlyInterpretation
            == Some(Field(row, "patientFriendlyInterpretation"))
  {
  }

  /** A batch of documents and the id counter after it. */
  datatype Batch = Batch(entries: seq<TestEntry>, next: nat)

  /** `records.map(mapToTest)`: one `uuidv4()` per row, in row order. */
  function MapRows(rows: seq<Row>, parse: string -> JsonParse, n: nat): (b: Batch)
    ensures |b.entries| == |rows| && b.next == n + |rows|
  {
    Batch(seq(|rows|, i requires 0 <= i < |rows| => MapToTest(rows[i], FreshId(n + i), parse)), n + |rows|)
  }

  /** `processMasterTestCsv` past the tokeniser: every row is cleaned as it is
      read, then normalised. */
  function ProcessRows(rows: seq<Row>, parse: string -> JsonParse, n: nat): (b: Batch)
    ensures |b.entries| == |rows| && b.next == n + |rows|
    ensures forall i :: 0 <= i < |rows| ==> b.entries[i] == MapToTest(CleanRow(rows[i]), FreshId(n + i), parse)
  {
    MapRows(seq(|rows|, i requires 0 <= i < |rows| => CleanRow(rows[i])), parse, n)
  }

  /** With a supply that avoids the ids already stored, no document of the
      batch takes one of them, so its upsert inserts and never overwrites. */
  lemma BatchIdsNew(rows: seq<Row>, parse: string -> JsonParse, n: nat, stored: set<string>)
    requires FreshFrom(n, stored)
    ensures forall i :: 0 <= i < |rows| ==> MapRows(rows, parse, n).entries[i].id !in stored
  {
  }

  /** Every document of a batch gets its own id. */
  lemma BatchIdsDistinct(rows: seq<Row>, parse: string -> JsonParse, n: nat, i: nat, j: nat)
    requires i < j < |rows|
    ensures MapRows(rows, parse, n).entries[i].id != MapRows(rows, parse, n).entries[j].id
  {
  }
}
