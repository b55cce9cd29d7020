/** Catalog documents back to spreadsheet text (`convertToCsv`). */
module Export {
  import opened Options
  import opened JsText
  import opened JsNumbers
  import opened Columns
  import opened Ranges
  import opened Normalize
  import opened CsvFormat
  import opened Seqs

  /** A value of an export record: text, or the number stored as `ordering`. */
  datatype CsvValue = Text(text: string) | Number(number: int)

  /** The intermediate record `convertToCsv` builds per test, by field name. */
  type Record = map<string, CsvValue>

  /** The fields of a test that `convertToCsv` reads, under the camelCase
      names it uses. */
  datatype ExportTest = ExportTest(
    name: string,
    componentName: string,
    testId: string,
    componentId: string,
    testGroup: string,
    masterTest: MasterTest)

  /** The record before reference ranges are placed: sixteen fields, each
      `x || ''` (the ordering `x || 0`). A structured interpretation has no
      free text, so its column is empty. */
  function BaseRecord(t: ExportTest): Record {
    var m := t.masterTest;
    map[
      "testName" := Text(t.name),
      "component" := Text(t.componentName),
      "resultType" := Text(m.resultType),
      "units" := Text(m.units),
      "specimenType" := Text(m.specimen),
      "medicineIntro" := Text(m.intro),
      "sampleCollectionTime" := Text(m.sampleCollectionTime),
      "testEnvironmentTemp" := Text(m.testEnvironmentTemp),
      "methodology" := Text(m.methodology),
      "calculationFormula" := Text(m.calculationFormulae),
      "testId" := Text(t.testId),
      "componentId" := Text(t.componentId),
      "testGroup" := Text(t.testGroup),
      "derivationType" := Text(m.derivationType),
      "ordering" := Number(m.ordering),
      "patientFriendlyInterpretation" :=
        Text(if m.patientFriendlyInterpretation.Some? then m.patientFriendlyInterpretation.value else "")
    ]
  }

  /** One arm of the `switch (range.userType)`: the category's two limit
      fields are set to the range's limits. */
  function SetRange(rec: Record, r: ReferenceRange): Record {
    rec[LowKey(r.userType) := Text(r.lowerLimit)][HighKey(r.userType) := Text(r.upperLimit)]
  }

  /** `referenceRanges.forEach(...)`: the ranges are placed in order, so a
      later range of a category overwrites an earlier one. */
  function ApplyRanges(rec: Record, ranges: seq<ReferenceRange>): Record {
    if |ranges| == 0 then rec
    else SetRange(ApplyRanges(rec, ranges[..|ranges| - 1]), ranges[|ranges| - 1])
  }

  /** The record `convertToCsv` builds for one test. */
  function ExportRecord(t: ExportTest): Record {
    ApplyRanges(BaseRecord(t), t.masterTest.referenceRanges)
  }

  /** The cell for one record value: `record[field] || ''`, escaped when it
      is text. A number is written as `String(n)` without quoting; the
      number 0, like the empty string, is falsy and becomes empty. */
  function Cell(v: CsvValue): string {
    match v
    case Text(s) => Escape(s)
    case Number(k) => if k == 0 then "" else IntToDecimal(k)
  }

  /** The cell under one header label: `record[CSV_COLUMN_MAPPING[header]]`,
      empty when the record has no such field. */
  function CellAt(rec: Record, header: string): string {
    if header in ColumnMapping && ColumnMapping[header] in rec then Cell(rec[ColumnMapping[header]]) else ""
  }

  /** The cells of a record, one per header label. */
  function CellsOf(rec: Record): (cells: seq<string>)
    ensures |cells| == |CsvHeader|
  {
    seq(|CsvHeader|, i requires 0 <= i < |CsvHeader| => CellAt(rec, CsvHeader[i]))
  }

  /** One data line: one cell per header label, joined by commas. */
  function DataLine(rec: Record): string {
    JoinWith(CellsOf(rec), ',')
  }

  /** The data lines of an export, one per test, in order. */
  function DataLines(tests: seq<ExportTest>): (lines: seq<string>)
    ensures |lines| == |tests|
  {
    seq(|tests|, i requires 0 <= i < |tests| => DataLine(ExportRecord(tests[i])))
  }

  /** `convertToCsv(testList)`: the header line, then one line per test,
      joined by line feeds. */
  function ConvertToCsv(tests: seq<ExportTest>): string {
    JoinWith([HeaderLine()] + DataLines(tests), '\n')
  }

  /** Every header label is a key of the column table. */
  lemma HeaderLabelsMapped()
    ensures forall i :: 0 <= i < |CsvHeader| ==> CsvHeader[i] in ColumnMapping
  {
  }

  /** The text a cell stands for once its quoting is undone. */
  function Shown(v: CsvValue): string {
    match v
    case Text(s) => s
    case Number(k) => if k == 0 then "" else IntToDecimal(k)
  }

  /** Every cell is the escaped form of the text it stands for: a number is
      never quoted, and needs no quotes. */
  lemma CellIsEscaped(v: CsvValue)
    ensures Cell(v) == Escape(Shown(v))
  {
    if v.Number? && v.number != 0 {
      var d := IntToDecimal(v.number);
      assert !NeedsQuotes(d);
    }
  }

  /** The text under one header label of an exported record. */
  function ShownAt(rec: Record, header: string): string {
    if header in ColumnMapping && ColumnMapping[header] in rec then Shown(rec[ColumnMapping[header]]) else ""
  }

  /** The texts of a data line, one per header label. */
  function Fields(rec: Record): (fs: seq<string>)
    ensures |fs| == |CsvHeader|
  {
    seq(|CsvHeader|, i requires 0 <= i < |CsvHeader| => ShownAt(rec, CsvHeader[i]))
  }

  /** A data line reads back as one field per header label, each the text
      of the record's field under that label, whatever commas and quotes it
      holds. */
  lemma DataLineRoundTrip(rec: Record)
    ensures |Fields(rec)| == 34
    ensures ParseLine(DataLine(rec)) == Some(Fields(rec))
  {
    var cells := CellsOf(rec);
    forall i | 0 <= i < |CsvHeader|
      ensures cells[i] == EscapeAll(Fields(rec))[i]
    {
      var h := CsvHeader[i];
      if h in ColumnMapping && ColumnMapping[h] in rec {
        CellIsEscaped(rec[ColumnMapping[h]]);
      }
    }
    assert cells == EscapeAll(Fields(rec));
    ParseLineRoundTrip(Fields(rec));
  }

  /** A record whose texts hold no line feed gives a data line without one. */
  lemma DataLineSingleLine(rec: Record)
    requires forall k :: k in rec ==> '\n' !in Shown(rec[k])
    ensures '\n' !in DataLine(rec)
  {
    var cells := CellsOf(rec);
    forall i | 0 <= i < |CsvHeader|
      ensures '\n' !in cells[i]
    {
      var h := CsvHeader[i];
      if h in ColumnMapping && ColumnMapping[h] in rec {
        CellIsEscaped(rec[ColumnMapping[h]]);
        EscapeKeepsLineFeeds(Shown(rec[ColumnMapping[h]]));
      }
    }
    JoinKeepsLineFeeds(cells, ',');
  }

  /** A test none of whose exported texts holds a line feed. */
  predicate SingleLineTest(t: ExportTest) {
    forall k :: k in ExportRecord(t) ==> '\n' !in Shown(ExportRecord(t)[k])
  }

  /** Splitting an export at line feeds gives the header line and then one
      data line per test, in order. Line feeds inside a value are not
      quoted, so this holds for tests whose texts are single-line. */
  lemma ConvertToCsvLines(tests: seq<ExportTest>)
    requires forall i :: 0 <= i < |tests| ==> SingleLineTest(tests[i])
    ensures SplitOn(ConvertToCsv(tests), '\n') == [HeaderLine()] + DataLines(tests)
  {
    HeaderSingleLine();
    DataLinesSingleLine(tests);
    SplitLines(HeaderLine(), DataLines(tests));
  }

  lemma DataLinesSingleLine(tests: seq<ExportTest>)
    requires forall i :: 0 <= i < |tests| ==> SingleLineTest(tests[i])
    ensures forall i :: 0 <= i < |tests| ==> '\n' !in DataLines(tests)[i]
  {
    forall i | 0 <= i < |tests|
      ensures '\n' !in DataLines(tests)[i]
    {
      DataLineSingleLine(ExportRecord(tests[i]));
    }
  }

  /** Reading an export back: line 0 reads as the 34 header labels and line
      `i + 1` as the texts of test `i`, one per header label. */
  lemma ConvertToCsvReadBack(tests: seq<ExportTest>)
    requires forall i :: 0 <= i < |tests| ==> SingleLineTest(tests[i])
    ensures |SplitOn(ConvertToCsv(tests), '\n')| == |tests| + 1
    ensures ParseLine(SplitOn(ConvertToCsv(tests), '\n')[0]) == Some(CsvHeader)
    ensures forall i :: 0 <= i < |tests| ==>
              ParseLine(SplitOn(ConvertToCsv(tests), '\n')[i + 1]) == Some(Fields(ExportRecord(tests[i])))
  {
    ConvertToCsvLines(tests);
    HeaderLineRoundTrip();
    forall i | 0 <= i < |tests|
      ensures ParseLine(DataLines(tests)[i]) == Some(Fields(ExportRecord(tests[i])))
    {
      DataLineRoundTrip(ExportRecord(tests[i]));
    }
  }

  /** Two records that agree on field `k`: both lack it, or both hold the
      same value. */
  predicate AgreeAt(a: Record, b: Record, k: string) {
    (k in a <==> k in b) && (k in a ==> a[k] == b[k])
  }

  /** Placing the same ranges keeps two records in agreement on a field. */
  lemma {:induction false} ApplyRangesAgreeAt(a: Record, b: Record, ranges: seq<ReferenceRange>, k: string)
    requires AgreeAt(a, b, k)
    ensures AgreeAt(ApplyRanges(a, ranges), ApplyRanges(b, ranges), k)
  {
    if |ranges| > 0 {
      ApplyRangesAgreeAt(a, b, ranges[..|ranges| - 1], k);
    }
  }

  /** Placing ranges touches limit fields only. */
  lemma {:induction false} ApplyRangesElsewhere(rec: Record, ranges: seq<ReferenceRange>, k: string)
    requires forall u :: k != LowKey(u) && k != HighKey(u)
    ensures AgreeAt(ApplyRanges(rec, ranges), rec, k)
  {
    if |ranges| > 0 {
      ApplyRangesElsewhere(rec, ranges[..|ranges| - 1], k);
    }
  }

  /** No range after position `i` has the category of the one at `i`. */
  predicate LastOfCategory(ranges: seq<ReferenceRange>, i: nat)
    requires i < |ranges|
  {
    forall j :: i < j < |ranges| ==> ranges[j].userType != ranges[i].userType
  }

  /** The last range of category `u` in `ranges`, if there is one. */
  function LastRangeOf(ranges: seq<ReferenceRange>, u: UserType): (r: Option<ReferenceRange>)
    ensures r.None? <==> forall i :: 0 <= i < |ranges| ==> ranges[i].userType != u
    ensures r.Some? ==> r.value.userType == u
    ensures r.Some? ==> exists i :: 0 <= i < |ranges| && ranges[i] == r.value && LastOfCategory(ranges, i)
  {
    if |ranges| == 0 then None
    else if ranges[|ranges| - 1].userType == u then Some(ranges[|ranges| - 1])
    else LastRangeOf(ranges[..|ranges| - 1], u)
  }

  /** The `switch` places every range in its category's two limit fields, so
      a category's fields hold the limits of its last range; a category
      without a range keeps what the record had. */
  lemma ApplyRangesAt(rec: Record, ranges: seq<ReferenceRange>, u: UserType)
    ensures LastRangeOf(ranges, u).Some? ==>
              LowKey(u) in ApplyRanges(rec, ranges) && HighKey(u) in ApplyRanges(rec, ranges) &&
              ApplyRanges(rec, ranges)[LowKey(u)] == Text(LastRangeOf(ranges, u).value.lowerLimit) &&
              ApplyRanges(rec, ranges)[HighKey(u)] == Text(LastRangeOf(ranges, u).value.upperLimit)
    ensures LastRangeOf(ranges, u).None? ==>
              AgreeAt(ApplyRanges(rec, ranges), rec, LowKey(u)) && AgreeAt(ApplyRanges(rec, ranges), rec, HighKey(u))
  {
    if LastRangeOf(ranges, u).Some? {
      ApplyRangesLast(rec, ranges, u);
    } else {
      ApplyRangesUntouched(rec, ranges, u);
    }
  }

  lemma {:induction false} ApplyRangesLast(rec: Record, ranges: seq<ReferenceRange>, u: UserType)
    requires LastRangeOf(ranges, u).Some?
    ensures LowKey(u) in ApplyRanges(rec, ranges) && HighKey(u) in ApplyRanges(rec, ranges)
    ensures ApplyRanges(rec, ranges)[LowKey(u)] == Text(LastRangeOf(ranges, u).value.lowerLimit)
    ensures ApplyRanges(rec, ranges)[HighKey(u)] == Text(LastRangeOf(ranges, u).value.upperLimit)
  {
    var v := ranges[|ranges| - 1].userType;
    if v != u {
      ApplyRangesLast(rec, ranges[..|ranges| - 1], u);
      LimitKeysDistinct(u, v);
      LimitKeysDistinct(v, u);
    } else {
      LimitKeysDistinct(u, u);
    }
  }

  lemma {:induction false} ApplyRangesUntouched(rec: Record, ranges: seq<ReferenceRange>, u: UserType)
    requires LastRangeOf(ranges, u).None?
    ensures AgreeAt(ApplyRanges(rec, ranges), rec, LowKey(u)) && AgreeAt(ApplyRanges(rec, ranges), rec, HighKey(u))
  {
    if |ranges| > 0 {
      var v := ranges[|ranges| - 1].userType;
      ApplyRangesUntouched(rec, ranges[..|ranges| - 1], u);
      LimitKeysDistinct(u, v);
      LimitKeysDistinct(v, u);
    }
  }

  /** A range whose category no other range has is the last of its category. */
  lemma {:induction false} LastRangeOfOnly(ranges: seq<ReferenceRange>, i: nat)
    requires i < |ranges|
    requires forall j :: 0 <= j < |ranges| && j != i ==> ranges[j].userType != ranges[i].userType
    ensures LastRangeOf(ranges, ranges[i].userType) == Some(ranges[i])
  {
    if i < |ranges| - 1 {
      LastRangeOfOnly(ranges[..|ranges| - 1], i);
    }
  }

  /** The record holds no limit field before the ranges are placed. */
  lemma BaseRecordHasNoLimits(t: ExportTest, u: UserType)
    ensures LowKey(u) !in BaseRecord(t) && HighKey(u) !in BaseRecord(t)
  {
    BaseRecordHasNoLowKey(t, u);
    BaseRecordHasNoHighKey(t, u);
  }

  lemma BaseRecordHasNoLowKey(t: ExportTest, u: UserType)
    ensures LowKey(u) !in BaseRecord(t)
  {
  }

  lemma BaseRecordHasNoHighKey(t: ExportTest, u: UserType)
    ensures HighKey(u) !in BaseRecord(t)
  {
  }

  /** The only range of its category is the one its limit fields show. */
  lemma PlacedOnly(rec: Record, ranges: seq<ReferenceRange>, i: nat)
    requires i < |ranges|
    requires forall j :: 0 <= j < |ranges| && j != i ==> ranges[j].userType != ranges[i].userType
    ensures var a, u := ApplyRanges(rec, ranges), ranges[i].userType;
            LowKey(u) in a && a[LowKey(u)] == Text(ranges[i].lowerLimit) &&
            HighKey(u) in a && a[HighKey(u)] == Text(ranges[i].upperLimit)
  {
    LastRangeOfOnly(ranges, i);
    ApplyRangesAt(rec, ranges, ranges[i].userType);
  }

  /** A category without a range gets no limit field it did not have. */
  lemma PlacedNone(rec: Record, ranges: seq<ReferenceRange>, u: UserType)
    requires LowKey(u) !in rec && HighKey(u) !in rec
    requires forall i :: 0 <= i < |ranges| ==> ranges[i].userType != u
    ensures LowKey(u) !in ApplyRanges(rec, ranges) && HighKey(u) !in ApplyRanges(rec, ranges)
  {
    ApplyRangesAt(rec, ranges, u);
  }

  /** Placing the ranges built from a row into a record without limit
      fields: each category the row includes gets exactly the row's two
      limits, and each other category has no limit field. */
  lemma RangesPlaced(rec: Record, row: Row, u: UserType)
    requires LowKey(u) !in rec && HighKey(u) !in rec
    ensures var a := ApplyRanges(rec, CreateReferenceRanges(row));
            Included(row, u) ==>
              LowKey(u) in a && a[LowKey(u)] == Text(Field(row, LowKey(u))) &&
              HighKey(u) in a && a[HighKey(u)] == Text(Field(row, HighKey(u)))
    ensures var a := ApplyRanges(rec, CreateReferenceRanges(row));
            !Included(row, u) ==> LowKey(u) !in a && HighKey(u) !in a
  {
    if Included(row, u) {
      IncludedPlaced(rec, row, u);
    } else {
      ExcludedNotPlaced(rec, row, u);
    }
  }

  lemma IncludedPlaced(rec: Record, row: Row, u: UserType)
    requires Included(row, u)
    ensures var a := ApplyRanges(rec, CreateReferenceRanges(row));
            LowKey(u) in a && a[LowKey(u)] == Text(Field(row, LowKey(u))) &&
            HighKey(u) in a && a[HighKey(u)] == Text(Field(row, HighKey(u)))
  {
    var rs := CreateReferenceRanges(row);
    var cs := Categories(rs);
    assert u in cs && Distinct(cs) && forall k :: 0 <= k < |rs| ==> rs[k] == RangeOf(row, rs[k].userType) by {
      CreateReferenceRangesContents(row);
    }
    var i :| 0 <= i < |cs| && cs[i] == u;
    assert forall j :: 0 <= j < |rs| && j != i ==> rs[j].userType != rs[i].userType by {
      assert forall j :: 0 <= j < |rs| ==> cs[j] == rs[j].userType;
    }
    PlacedOnly(rec, rs, i);
  }

  lemma ExcludedNotPlaced(rec: Record, row: Row, u: UserType)
    requires LowKey(u) !in rec && HighKey(u) !in rec
    requires !Included(row, u)
    ensures var a := ApplyRanges(rec, CreateReferenceRanges(row));
            LowKey(u) !in a && HighKey(u) !in a
  {
    var rs := CreateReferenceRanges(row);
    assert forall i :: 0 <= i < |rs| ==> rs[i].userType != u by {
      CreateReferenceRangesContents(row);
      assert forall i :: 0 <= i < |rs| ==> Categories(rs)[i] == rs[i].userType;
    }
    PlacedNone(rec, rs, u);
  }

  /** For a test whose ranges were built from a row, each category the row
      includes is exported with exactly the row's two limits (`''` for a
      missing one), and each category it does not include has both limit
      fields absent, so its cells are empty. */
  lemma ExportedLimits(t: ExportTest, row: Row, u: UserType)
    requires t.masterTest.referenceRanges == CreateReferenceRanges(row)
    ensures Included(row, u) ==>
              LowKey(u) in ExportRecord(t) && ExportRecord(t)[LowKey(u)] == Text(Field(row, LowKey(u))) &&
              HighKey(u) in ExportRecord(t) && ExportRecord(t)[HighKey(u)] == Text(Field(row, HighKey(u)))
    ensures !Included(row, u) ==> LowKey(u) !in ExportRecord(t) && HighKey(u) !in ExportRecord(t)
  {
    BaseRecordHasNoLimits(t, u);
    RangesPlaced(BaseRecord(t), row, u);
  }

  /** The row a record stands for once its cells are read back as text. */
  function RecordRow(rec: Record): (row: Row)
    ensures row.Keys == rec.Keys
  {
    map k | k in rec :: Shown(rec[k])
  }

  /** Exporting the ranges built from a row and building ranges again from
      the exported fields gives the same ranges. */
  lemma ExportedRangesReread(t: ExportTest, row: Row)
    requires t.masterTest.referenceRanges == CreateReferenceRanges(row)
    ensures CreateReferenceRanges(RecordRow(ExportRecord(t))) == t.masterTest.referenceRanges
  {
    var back := RecordRow(ExportRecord(t));
    forall u
      ensures Included(back, u) <==> Included(row, u)
      ensures Included(back, u) ==> RangeOf(back, u) == RangeOf(row, u)
    {
      ExportedLimits(t, row, u);
    }
    RangesAgree(back, row, CheckOrder);
  }

  /** The header labels leave out `Test Group` and `Derivation Type`: no
      exported column reads the test group or the derivation type. */
  lemma HeaderOmitsGroupAndDerivation()
    ensures forall i :: 0 <= i < |CsvHeader| ==>
              CsvHeader[i] in ColumnMapping &&
              ColumnMapping[CsvHeader[i]] != "testGroup" && ColumnMapping[CsvHeader[i]] != "derivationType"
  {
    forall i | 0 <= i < |CsvHeader|
      ensures CsvHeader[i] in ColumnMapping &&
              ColumnMapping[CsvHeader[i]] != "testGroup" && ColumnMapping[CsvHeader[i]] != "derivationType"
    {
      HeaderColumn(i);
    }
  }

  lemma HeaderColumn(i: nat)
    requires i < |CsvHeader|
    ensures ExportedColumn(CsvHeader[i])
  {
    if i == 0 {
      HeaderColumn0();
    } else if i == 1 {
      HeaderColumn1();
    } else if i == 2 {
      HeaderColumn2();
    } else if i == 3 {
      HeaderColumn3();
    } else if i == 4 {
      HeaderColumn4();
    } else if i == 5 {
      HeaderColumn5();
    } else if i == 6 {
      HeaderColumn6();
    } else if i == 7 {
      HeaderColumn7();
    } else if i == 8 {
      HeaderColumn8();
    } else if i == 9 {
      HeaderColumn9();
    } else if i == 10 {
      HeaderColumn10();
    } else if i == 11 {
      HeaderColumn11();
    } else if i == 12 {
      HeaderColumn12();
    } else if i == 13 {
      HeaderColumn13();
    } else if i == 14 {
      HeaderColumn14();
    } else if i == 15 {
      HeaderColumn15();
    } else if i == 16 {
      HeaderColumn16();
    } else if i == 17 {
      HeaderColumn17();
    } else if i == 18 {
      HeaderColumn18();
    } else if i == 19 {
      HeaderColumn19();
    } else if i == 20 {
      HeaderColumn20();
    } else if i == 21 {
      HeaderColumn21();
    } else if i == 22 {
      HeaderColumn22();
    } else if i == 23 {
      HeaderColumn23();
    } else if i == 24 {
      HeaderColumn24();
    } else if i == 25 {
      HeaderColumn25();
    } else if i == 26 {
      HeaderColumn26();
    } else if i == 27 {
      HeaderColumn27();
    } else if i == 28 {
      HeaderColumn28();
    } else if i == 29 {
      HeaderColumn29();
    } else if i == 30 {
      HeaderColumn30();
    } else if i == 31 {
      HeaderColumn31();
    } else if i == 32 {
      HeaderColumn32();
    } else {
      HeaderColumn33();
    }
  }

  /** A label the column table renames to a field other than the test group
      and the derivation type. */
  predicate ExportedColumn(header: string) {
    header in ColumnMapping && ColumnMapping[header] != "testGroup" && ColumnMapping[header] != "derivationType"
  }

  // One lemma per header label, each checking one lookup in the 36-entry
  // column table. A single lookup already costs about a sixth of the
  // solver's resource limit, so the 34 labels are checked one at a time and
  // `HeaderColumn` above dispatches to them.

  lemma HeaderColumn0()
    ensures ExportedColumn(CsvHeader[0])
  {
    assert CsvHeader[0] == "Test Name" && ColumnMapping["Test Name"] == "testName";
  }

  lemma HeaderColumn1()
    ensures ExportedColumn(CsvHeader[1])
  {
    assert CsvHeader[1] == "Component" && ColumnMapping["Component"] == "component";
  }

  lemma HeaderColumn2()
    ensures ExportedColumn(CsvHeader[2])
  {
    assert CsvHeader[2] == "Result Type" && ColumnMapping["Result Type"] == "resultType";
  }

  lemma HeaderColumn3()
    ensures ExportedColumn(CsvHeader[3])
  {
    assert CsvHeader[3] == "Units" && ColumnMapping["Units"] == "units";
  }

  lemma HeaderColumn4()
    ensures ExportedColumn(CsvHeader[4])
  {
    assert CsvHeader[4] == "Adult Male Lower Limit" && ColumnMapping["Adult Male Lower Limit"] == "adultMaleLow";
  }

  lemma HeaderColumn5()
    ensures ExportedColumn(CsvHeader[5])
  {
    assert CsvHeader[5] == "Adult Male Upper Limit" && ColumnMapping["Adult Male Upper Limit"] == "adultMaleHi";
  }

  lemma HeaderColumn6()
    ensures ExportedColumn(CsvHeader[6])
  {
    assert CsvHeader[6] == "Adult Female Lower Limit" && ColumnMapping["Adult Female Lower Limit"] == "adultFemaleLow";
  }

  lemma HeaderColumn7()
    ensures ExportedColumn(CsvHeader[7])
  {
    assert CsvHeader[7] == "Adult Female Upper Limit" && ColumnMapping["Adult Female Upper Limit"] == "adultFemaleHi";
  }

  lemma HeaderColumn8()
    ensures ExportedColumn(CsvHeader[8])
  {
    assert CsvHeader[8] == "Newborn Lower Limit" && ColumnMapping["Newborn Lower Limit"] == "newbornLow";
  }

  lemma HeaderColumn9()
    ensures ExportedColumn(CsvHeader[9])
  {
    assert CsvHeader[9] == "Newborn Upper Limit" && ColumnMapping["Newborn Upper Limit"] == "newbornHi";
  }

  lemma HeaderColumn10()
    ensures ExportedColumn(CsvHeader[10])
  {
    assert CsvHeader[10] == "Infant Lower Limit" && ColumnMapping["Infant Lower Limit"] == "infantLow";
  }

  lemma HeaderColumn11()
    ensures ExportedColumn(CsvHeader[11])
  {
    assert CsvHeader[11] == "Infant Upper Limit" && ColumnMapping["Infant Upper Limit"] == "infantHi";
  }

  lemma HeaderColumn12()
    ensures ExportedColumn(CsvHeader[12])
  {
    assert CsvHeader[12] == "Toddler Lower Limit" && ColumnMapping["Toddler Lower Limit"] == "toddlerLow";
  }

  lemma HeaderColumn13()
    ensures ExportedColumn(CsvHeader[13])
  {
    assert CsvHeader[13] == "Toddler Upper Limit" && ColumnMapping["Toddler Upper Limit"] == "toddlerHi";
  }

  lemma HeaderColumn14()
    ensures ExportedColumn(CsvHeader[14])
  {
    assert CsvHeader[14] == "Child Lower Limit" && ColumnMapping["Child Lower Limit"] == "childLow";
  }

  lemma HeaderColumn15()
    ensures ExportedColumn(CsvHeader[15])
  {
    assert CsvHeader[15] == "Child Upper Limit" && ColumnMapping["Child Upper Limit"] == "childHi";
  }

  lemma HeaderColumn16()
    ensures ExportedColumn(CsvHeader[16])
  {
    assert CsvHeader[16] == "Adolescent Male Lower Limit" && ColumnMapping["Adolescent Male Lower Limit"] == "adolescentMaleLow";
  }

  lemma HeaderColumn17()
    ensures ExportedColumn(CsvHeader[17])
  {
    assert CsvHeader[17] == "Adolescent Male Upper Limit" && ColumnMapping["Adolescent Male Upper Limit"] == "adolescentMaleHi";
  }

  lemma HeaderColumn18()
    ensures ExportedColumn(CsvHeader[18])
  {
    assert CsvHeader[18] == "Adolescent Female Lower Limit" && ColumnMapping["Adolescent Female Lower Limit"] == "adolescentFemaleLow";
  }

  lemma HeaderColumn19()
    ensures ExportedColumn(CsvHeader[19])
  {
    assert CsvHeader[19] == "Adolescent Female Upper Limit" && ColumnMapping["Adolescent Female Upper Limit"] == "adolescentFemaleHi";
  }

  lemma HeaderColumn20()
    ensures ExportedColumn(CsvHeader[20])
  {
    assert CsvHeader[20] == "Adolescent Lower Limit" && ColumnMapping["Adolescent Lower Limit"] == "adolescentLow";
  }

  lemma HeaderColumn21()
    ensures ExportedColumn(CsvHeader[21])
  {
    assert CsvHeader[21] == "Adolescent Upper Limit" && ColumnMapping["Adolescent Upper Limit"] == "adolescentHi";
  }

  lemma HeaderColumn22()
    ensures ExportedColumn(CsvHeader[22])
  {
    assert CsvHeader[22] == "Geriatric Lower Limit" && ColumnMapping["Geriatric Lower Limit"] == "geriatricLow";
  }

  lemma HeaderColumn23()
    ensures ExportedColumn(CsvHeader[23])
  {
    assert CsvHeader[23] == "Geriatric Upper Limit" && ColumnMapping["Geriatric Upper Limit"] == "geriatricHi";
  }

  lemma HeaderColumn24()
    ensures ExportedColumn(CsvHeader[24])
  {
    assert CsvHeader[24] == "Type of Specimen" && ColumnMapping["Type of Specimen"] == "specimenType";
  }

  lemma HeaderColumn25()
    ensures ExportedColumn(CsvHeader[25])
  {
    assert CsvHeader[25] == "Medicine Introduction" && ColumnMapping["Medicine Introduction"] == "medicineIntro";
  }

  lemma HeaderColumn26()
    ensures ExportedColumn(CsvHeader[26])
  {
    assert CsvHeader[26] == "Time of Sample Collection" && ColumnMapping["Time of Sample Collection"] == "sampleCollectionTime";
  }

  lemma HeaderColumn27()
    ensures ExportedColumn(CsvHeader[27])
  {
    assert CsvHeader[27] == "Test Environment Temperature" && ColumnMapping["Test Environment Temperature"] == "testEnvironmentTemp";
  }

  lemma HeaderColumn28()
    ensures ExportedColumn(CsvHeader[28])
  {
    assert CsvHeader[28] == "Methodology" && ColumnMapping["Methodology"] == "methodology";
  }

  lemma HeaderColumn29()
    ensures ExportedColumn(CsvHeader[29])
  {
    assert CsvHeader[29] == "Patient-Friendly Interpretation" && ColumnMapping["Patient-Friendly Interpretation"] == "patientFriendlyInterpretation";
  }

  lemma HeaderColumn30()
    ensures ExportedColumn(CsvHeader[30])
  {
    assert CsvHeader[30] == "Calculation formulae" && ColumnMapping["Calculation formulae"] == "calculationFormula";
  }

  lemma HeaderColumn31()
    ensures ExportedColumn(CsvHeader[31])
  {
    assert CsvHeader[31] == "Test ID" && ColumnMapping["Test ID"] == "testId";
  }

  lemma HeaderColumn32()
    ensures ExportedColumn(CsvHeader[32])
  {
    assert CsvHeader[32] == "Component ID" && ColumnMapping["Component ID"] == "componentId";
  }

  lemma HeaderColumn33()
    ensures ExportedColumn(CsvHeader[33])
  {
    assert CsvHeader[33] == "Ordering" && ColumnMapping["Ordering"] == "ordering";
  }

  /** The test group and the derivation type never reach the output: two
      tests that differ only there export the same data line. */
  lemma GroupAndDerivationNotExported(t: ExportTest, group: string, derivation: string)
    ensures DataLine(ExportRecord(t))
            == DataLine(ExportRecord(t.(testGroup := group, masterTest := t.masterTest.(derivationType := derivation))))
  {
    var t' := t.(testGroup := group, masterTest := t.masterTest.(derivationType := derivation));
    var a, b := BaseRecord(t), BaseRecord(t');
    HeaderOmitsGroupAndDerivation();
    forall i | 0 <= i < |CsvHeader|
      ensures CellAt(ExportRecord(t), CsvHeader[i]) == CellAt(ExportRecord(t'), CsvHeader[i])
    {
      var k := ColumnMapping[CsvHeader[i]];
      assert AgreeAt(a, b, k);
      ApplyRangesAgreeAt(a, b, t.masterTest.referenceRanges, k);
    }
    assert CellsOf(ExportRecord(t)) == CellsOf(ExportRecord(t'));
  }

  /** The Ordering column, the last one, shows the stored ordering, empty
      for 0, and `parseInt(...) || 0` of it gives the ordering back. */
  lemma OrderingExported(t: ExportTest)
    ensures CsvHeader[33] == "Ordering"
    ensures Fields(ExportRecord(t))[33] ==
              if t.masterTest.ordering == 0 then "" else IntToDecimal(t.masterTest.ordering)
    ensures IntOrZero(Fields(ExportRecord(t))[33]) == t.masterTest.ordering
  {
    var n := t.masterTest.ordering;
    var cell := Fields(ExportRecord(t))[33];
    assert cell == if n == 0 then "" else IntToDecimal(n) by {
      ApplyRangesElsewhere(BaseRecord(t), t.masterTest.referenceRanges, "ordering");
    }
    if n != 0 {
      ParseIntRoundTrip(n);
    } else {
      NoDigitsIsNaN("");
    }
  }
}
