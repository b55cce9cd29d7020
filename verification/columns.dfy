/** The spreadsheet's column vocabulary and the per-row cleaning applied while
    the upload is read (utils/processMasterTestCsv.js, `CSV_COLUMN_MAPPING`,
    the `mapHeaders` option and the `data` handler). */
module Columns {
  import opened JsText

  /** A tokenised row after header mapping: field name to cell text. */
  type Row = map<string, string>

  /** `CSV_COLUMN_MAPPING`: human-readable header to internal field name. */
  const ColumnMapping: map<string, string> := map[
    "Test Group" := "testGroup",
    "Test Name" := "testName",
    "Component" := "component",
    "Result Type" := "resultType",
    "Units" := "units",
    "Adult Male Lower Limit" := "adultMaleLow",
    "Adult Male Upper Limit" := "adultMaleHi",
    "Adult Female Lower Limit" := "adultFemaleLow",
    "Adult Female Upper Limit" := "adultFemaleHi",
    "Newborn Lower Limit" := "newbornLow",
    "Newborn Upper Limit" := "newbornHi",
    "Infant Lower Limit" := "infantLow",
    "Infant Upper Limit" := "infantHi",
    "Toddler Lower Limit" := "toddlerLow",
    "Toddler Upper Limit" := "toddlerHi",
    "Child Lower Limit" := "childLow",
    "Child Upper Limit" := "childHi",
    "Adolescent Male Lower Limit" := "adolescentMaleLow",
    "Adolescent Male Upper Limit" := "adolescentMaleHi",
    "Adolescent Female Lower Limit" := "adolescentFemaleLow",
    "Adolescent Female Upper Limit" := "adolescentFemaleHi",
    "Adolescent Lower Limit" := "adolescentLow",
    "Adolescent Upper Limit" := "adolescentHi",
    "Geriatric Lower Limit" := "geriatricLow",
    "Geriatric Upper Limit" := "geriatricHi",
    "Type of Specimen" := "specimenType",
    "Medicine Introduction" := "medicineIntro",
    "Time of Sample Collection" := "sampleCollectionTime",
    "Test Environment Temperature" := "testEnvironmentTemp",
    "Methodology" := "methodology",
    "Patient-Friendly Interpretation" := "patientFriendlyInterpretation",
    "Calculation formulae" := "calculationFormula",
    "Test ID" := "testId",
    "Component ID" := "componentId",
    "Derivation Type" := "derivationType",
    "Ordering" := "ordering"
  ]

  /** The fallback slug for an unknown header:
      `header.toLowerCase().replace(/\s+/g, '_')`. */
  function Slug(header: string): string {
    CollapseWhitespace(ToLower(header))
  }

  /** The `mapHeaders` option: a known header is renamed through the table,
      any other header is slugged. */
  function MapHeader(header: string): (name: string)
    ensures header in ColumnMapping ==> name == ColumnMapping[header]
    ensures header !in ColumnMapping ==> NoWhitespace(name) && |name| <= |header|
  {
    if header in ColumnMapping then ColumnMapping[header] else Slug(header)
  }

  lemma {:induction false} ToLowerAppend(a: string, b: string)
    ensures ToLower(a + b) == ToLower(a) + ToLower(b)
  {
    assert forall k :: 0 <= k < |a + b| ==>
      ToLower(a + b)[k] == (ToLower(a) + ToLower(b))[k];
  }

  lemma ToLowerNoWhitespace(s: string)
    requires NoWhitespace(s)
    ensures NoWhitespace(ToLower(s))
  {
  }

  lemma ToLowerAllWhitespace(s: string)
    requires AllWhitespace(s)
    ensures AllWhitespace(ToLower(s))
  {
  }

  /** An unknown header without white space is only lower-cased. */
  lemma SlugOneWord(header: string)
    requires header !in ColumnMapping && NoWhitespace(header)
    ensures MapHeader(header) == ToLower(header)
  {
    ToLowerNoWhitespace(header);
    CollapseNoWhitespace(ToLower(header));
  }

  /** An unknown header of two words separated by a run of white space maps
      to the lower-cased words joined by one underscore, whatever the run. */
  lemma SlugTwoWords(a: string, gap: string, b: string)
    requires NoWhitespace(a) && NoWhitespace(b)
    requires |gap| > 0 && AllWhitespace(gap)
    requires a + gap + b !in ColumnMapping
    ensures MapHeader(a + gap + b) == ToLower(a) + "_" + ToLower(b)
  {
    var la, lg, lb := ToLower(a), ToLower(gap), ToLower(b);
    ToLowerAppend(a + gap, b);
    ToLowerAppend(a, gap);
    ToLowerNoWhitespace(a);
    ToLowerNoWhitespace(b);
    ToLowerAllWhitespace(gap);
    assert ToLower(a + gap + b) == la + lg + lb;
    CollapseAppend(la + lg, lb);
    CollapseAppend(la, lg);
    CollapseNoWhitespace(la);
    CollapseNoWhitespace(lb);
    CollapseRun(lg);
  }

  /** `row.field || ''`: an absent field reads as the empty string. Every
      read of a row in the pipeline goes through `|| ''`, `&&`, `!` or
      `parseInt`, all of which treat `undefined` and `''` alike. */
  function Field(row: Row, key: string): (v: string)
    ensures key !in row ==> v == ""
    ensures key in row ==> v == row[key]
  {
    if key in row then row[key] else ""
  }

  /** The `data` handler: every cell of the row is trimmed, keys stay. */
  function CleanRow(row: Row): (clean: Row)
    ensures clean.Keys == row.Keys
    ensures forall k :: k in row ==> |clean[k]| <= |row[k]|
  {
    map k | k in row :: Trim(row[k])
  }

  lemma MapsAgree(a: Row, b: Row)
    requires a.Keys == b.Keys
    requires forall k :: k in a ==> a[k] == b[k]
    ensures a == b
  {
  }

  /** Cleaning keeps every key and what every cell says: each cell becomes
      its trimmed text, a cell is blank after cleaning exactly when it was
      blank before, and cleaning twice changes nothing more. */
  lemma CleanRowKeepsContent(row: Row)
    ensures forall k :: k in row ==> k in CleanRow(row) && CleanRow(row)[k] == Trim(row[k])
    ensures CleanRow(CleanRow(row)) == CleanRow(row)
    ensures forall k :: k in row ==> (IsBlank(CleanRow(row)[k]) <==> IsBlank(row[k]))
  {
    var clean := CleanRow(row);
    forall k | k in row
      ensures clean[k] == Trim(row[k]) && Trim(clean[k]) == clean[k]
      ensures IsBlank(clean[k]) <==> IsBlank(row[k])
    {
      TrimIdempotent(row[k]);
      BlankIffTrimEmpty(row[k]);
      BlankIffTrimEmpty(Trim(row[k]));
    }
    var again := CleanRow(clean);
    assert again.Keys == clean.Keys;
    assert forall k :: k in again ==> again[k] == clean[k];
    MapsAgree(again, clean);
  }
}
