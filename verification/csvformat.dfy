/** The text format of the export: the header labels, the comma and
    double-quote quoting of one value (line feeds are not quoted), joining,
    and a reader for one line that undoes the quoting. */
module CsvFormat {
  import opened Options

  /** `CSV_HEADER`: the 34 column labels, in export order. */
  const CsvHeader: seq<string> := [
    "Test Name",
    "Component",
    "Result Type",
    "Units",
    "Adult Male Lower Limit",
    "Adult Male Upper Limit",
    "Adult Female Lower Limit",
    "Adult Female Upper Limit",
    "Newborn Lower Limit",
    "Newborn Upper Limit",
    "Infant Lower Limit",
    "Infant Upper Limit",
    "Toddler Lower Limit",
    "Toddler Upper Limit",
    "Child Lower Limit",
    "Child Upper Limit",
    "Adolescent Male Lower Limit",
    "Adolescent Male Upper Limit",
    "Adolescent Female Lower Limit",
    "Adolescent Female Upper Limit",
    "Adolescent Lower Limit",
    "Adolescent Upper Limit",
    "Geriatric Lower Limit",
    "Geriatric Upper Limit",
    "Type of Specimen",
    "Medicine Introduction",
    "Time of Sample Collection",
    "Test Environment Temperature",
    "Methodology",
    "Patient-Friendly Interpretation",
    "Calculation formulae",
    "Test ID",
    "Component ID",
    "Ordering"
  ]

  /** `value.includes(',') || value.includes('"')` */
  predicate NeedsQuotes(s: string) {
    ',' in s || '"' in s
  }

  /** `value.replace(/"/g, '""')` */
  function DoubleQuotes(s: string): (r: string)
    ensures |r| >= |s|
  {
    if |s| == 0 then []
    else (if s[0] == '"' then "\"\"" else [s[0]]) + DoubleQuotes(s[1..])
  }

  /** The escaping of one text value: wrapped in quotes, with inner quotes
      doubled, when it holds a comma or a quote; as it is otherwise. */
  function Escape(s: string): string {
    if NeedsQuotes(s) then "\"" + DoubleQuotes(s) + "\"" else s
  }

  /** `parts.join(sep)` */
  function JoinWith(parts: seq<string>, sep: char): string {
    if |parts| == 0 then []
    else if |parts| == 1 then parts[0]
    else parts[0] + [sep] + JoinWith(parts[1..], sep)
  }

  /** `CSV_HEADER.join(',')` */
  function HeaderLine(): string {
    JoinWith(CsvHeader, ',')
  }

  // ---------------------------------------------------------------------
  // Reading one line back: a field is either quoted, with `""` standing
  // for one quote, or runs to the next comma.

  /** The rest of a quoted field after its opening quote: its content and
      what follows the closing quote; `None` when the quote is never closed. */
  function ReadQuoted(s: string): (r: Option<(string, string)>)
    ensures r.Some? ==> |r.value.1| < |s|
  {
    if |s| == 0 then None
    else if s[0] == '"' then
      if |s| >= 2 && s[1] == '"' then
        match ReadQuoted(s[2..])
        case None => None
        case Some((f, rest)) => Some(("\"" + f, rest))
      else Some(([], s[1..]))
    else
      match ReadQuoted(s[1..])
      case None => None
      case Some((f, rest)) => Some(([s[0]] + f, rest))
  }

  /** An unquoted field: everything up to the next comma. */
  function ReadUnquoted(s: string): (r: (string, string))
    ensures |r.1| <= |s|
    ensures r.1 == [] || r.1[0] == ','
  {
    if |s| == 0 || s[0] == ',' then ([], s)
    else
      var (f, rest) := ReadUnquoted(s[1..]);
      ([s[0]] + f, rest)
  }

  /** The first field of a line and what follows it, which is empty or
      starts with the separating comma; `None` when a quoted field is not
      closed or is followed by something other than a comma. */
  function ReadField(line: string): (r: Option<(string, string)>)
    ensures r.Some? ==> |r.value.1| <= |line|
    ensures r.Some? ==> r.value.1 == [] || r.value.1[0] == ','
  {
    if |line| > 0 && line[0] == '"' then
      match ReadQuoted(line[1..])
      case None => None
      case Some((f, rest)) => if rest == [] || rest[0] == ',' then Some((f, rest)) else None
    else Some(ReadUnquoted(line))
  }

  function Prepend(v: string, fields: Option<seq<string>>): Option<seq<string>> {
    match fields
    case None => None
    case Some(fs) => Some([v] + fs)
  }

  /** The fields of one line. */
  function ParseLine(line: string): Option<seq<string>>
    decreases |line|
  {
    match ReadField(line)
    case None => None
    case Some((f, rest)) => if rest == [] then Some([f]) else Prepend(f, ParseLine(rest[1..]))
  }

  /** Reading a doubled-quote body back, up to the closing quote, gives the
      original text and leaves what follows. */
  lemma {:induction false} QuotedRoundTrip(v: string, tail: string)
    requires tail == [] || tail[0] != '"'
    ensures ReadQuoted(DoubleQuotes(v) + "\"" + tail) == Some((v, tail))
  {
    var s := DoubleQuotes(v) + "\"" + tail;
    if |v| == 0 {
      assert s == "\"" + tail;
      assert s[1..] == tail;
    } else {
      QuotedRoundTrip(v[1..], tail);
      var after := DoubleQuotes(v[1..]) + "\"" + tail;
      if v[0] == '"' {
        assert s == "\"\"" + after;
        assert s[2..] == after;
        assert "\"" + v[1..] == v;
      } else {
        assert s == [v[0]] + after;
        assert s[1..] == after;
        assert [v[0]] + v[1..] == v;
      }
    }
  }

  lemma {:induction false} UnquotedRoundTrip(v: string, tail: string)
    requires ',' !in v
    requires tail == [] || tail[0] == ','
    ensures ReadUnquoted(v + tail) == (v, tail)
  {
    if |v| == 0 {
      assert v + tail == tail;
    } else {
      assert (v + tail)[0] == v[0];
      assert (v + tail)[1..] == v[1..] + tail;
      UnquotedRoundTrip(v[1..], tail);
      assert [v[0]] + v[1..] == v;
    }
  }

  function EscapeAll(vs: seq<string>): (cells: seq<string>)
    ensures |cells| == |vs|
  {
    seq(|vs|, i requires 0 <= i < |vs| => Escape(vs[i]))
  }

  /** The first field of a line that starts with an escaped value is that
      value, and reading goes on at the comma after it. */
  lemma FieldRoundTrip(v: string, tail: string)
    requires tail == [] || tail[0] == ','
    ensures ReadField(Escape(v) + tail) == Some((v, tail))
  {
    if NeedsQuotes(v) {
      QuotedFieldRoundTrip(v, tail);
    } else {
      PlainFieldRoundTrip(v, tail);
    }
  }

  lemma QuotedFieldRoundTrip(v: string, tail: string)
    requires NeedsQuotes(v)
    requires tail == [] || tail[0] == ','
    ensures ReadField("\"" + DoubleQuotes(v) + "\"" + tail) == Some((v, tail))
  {
    var line := "\"" + DoubleQuotes(v) + "\"" + tail;
    assert ReadQuoted(line[1..]) == Some((v, tail)) by {
      assert line[1..] == DoubleQuotes(v) + "\"" + tail;
      QuotedRoundTrip(v, tail);
    }
    assert |line| > 0 && line[0] == '"';
  }

  lemma PlainFieldRoundTrip(v: string, tail: string)
    requires !NeedsQuotes(v)
    requires tail == [] || tail[0] == ','
    ensures ReadField(v + tail) == Some((v, tail))
  {
    UnquotedRoundTrip(v, tail);
    if |v| > 0 {
      assert (v + tail)[0] == v[0] && v[0] in v;
    } else {
      assert v + tail == tail;
    }
  }

  /** Escaping every value and joining with commas is undone by reading the
      line back: the quoting loses nothing and never splits or merges
      fields, whatever commas and quotes the values hold. */
  lemma {:induction false} ParseLineRoundTrip(vs: seq<string>)
    requires |vs| > 0
    ensures ParseLine(JoinWith(EscapeAll(vs), ',')) == Some(vs)
  {
    var v := vs[0];
    var cells := EscapeAll(vs);
    assert cells[0] == Escape(v);
    if |vs| == 1 {
      assert JoinWith(cells, ',') == Escape(v) + [];
      FieldRoundTrip(v, []);
      assert vs == [v];
    } else {
      var tail := [','] + JoinWith(EscapeAll(vs[1..]), ',');
      assert cells[1..] == EscapeAll(vs[1..]);
      assert JoinWith(cells, ',') == Escape(v) + tail;
      ParseLineRoundTrip(vs[1..]);
      assert tail[1..] == JoinWith(EscapeAll(vs[1..]), ',');
      FieldRoundTrip(v, tail);
      assert vs == [v] + vs[1..];
    }
  }

  /** A value is quoted exactly when it holds a comma or a quote, and reading
      its cell back recovers it. */
  lemma EscapeRoundTrip(s: string)
    ensures (|Escape(s)| > 0 && Escape(s)[0] == '"') <==> NeedsQuotes(s)
    ensures !NeedsQuotes(s) ==> Escape(s) == s
    ensures ParseLine(Escape(s)) == Some([s])
  {
    if !NeedsQuotes(s) && |s| > 0 {
      assert s[0] in s;
    }
    ParseLineRoundTrip([s]);
    assert EscapeAll([s]) == [Escape(s)];
  }

  /** A label made only of characters other than a comma, a quote and a
      line feed. */
  predicate PlainLabel(s: string) {
    forall k :: 0 <= k < |s| ==> s[k] != ',' && s[k] != '"' && s[k] != '\n'
  }

  /** No header label holds a comma, a quote or a line feed, so none is
      quoted and the header is one line. */
  lemma HeaderLabelsPlain()
    ensures forall i :: 0 <= i < |CsvHeader| ==> !NeedsQuotes(CsvHeader[i]) && '\n' !in CsvHeader[i]
  {
    HeaderLabelsPlain1();
    HeaderLabelsPlain2();
    HeaderLabelsPlain3();
    HeaderLabelsPlain4();
    HeaderLabelsPlain5();
    HeaderLabelsPlain6();
    HeaderLabelsPlain7();
    HeaderLabelsPlain8();
    HeaderLabelsPlain9();
    HeaderLabelsPlain10();
    HeaderLabelsPlain11();
    HeaderLabelsPlain12();
    HeaderLabelsPlain13();
    HeaderLabelsPlain14();
    HeaderLabelsPlain15();
    HeaderLabelsPlain16();
    HeaderLabelsPlain17();
    forall i | 0 <= i < |CsvHeader|
      ensures !NeedsQuotes(CsvHeader[i]) && '\n' !in CsvHeader[i]
    {
      assert PlainLabel(CsvHeader[i]);
    }
  }

  // `HeaderLabelsPlain1` to `HeaderLabelsPlain17` each check two labels,
  // the two after those of the chunk before. A chunk looks at every
  // character of its labels, and one of two labels already costs about a
  // quarter of the solver's resource limit, so the header is checked in
  // these small pieces and `HeaderLabelsPlain` above chains them.

  lemma HeaderLabelsPlain1()
    ensures forall i :: 0 <= i < 2 ==> PlainLabel(CsvHeader[i])
  {
    assert CsvHeader[0] == "Test Name" && PlainLabel("Test Name");
    assert CsvHeader[1] == "Component" && PlainLabel("Component");
  }

  lemma HeaderLabelsPlain2()
    ensures forall i :: 2 <= i < 4 ==> PlainLabel(CsvHeader[i])
  {
    assert CsvHeader[2] == "Result Type" && PlainLabel("Result Type");
    assert CsvHeader[3] == "Units" && PlainLabel("Units");
  }

  lemma HeaderLabelsPlain3()
    ensures forall i :: 4 <= i < 6 ==> PlainLabel(CsvHeader[i])
  {
    assert CsvHeader[4] == "Adult Male Lower Limit" && PlainLabel("Adult Male Lower Limit");
    assert CsvHeader[5] == "Adult Male Upper Limit" && PlainLabel("Adult Male Upper Limit");
  }

  lemma HeaderLabelsPlain4()
    ensures forall i :: 6 <= i < 8 ==> PlainLabel(CsvHeader[i])
  {
    assert CsvHeader[6] == "Adult Female Lower Limit" && PlainLabel("Adult Female Lower Limit");
    assert CsvHeader[7] == "Adult Female Upper Limit" && PlainLabel("Adult Female Upper Limit");
  }

  lemma HeaderLabelsPlain5()
    ensures forall i :: 8 <= i < 10 ==> PlainLabel(CsvHeader[i])
  {
    assert CsvHeader[8] == "Newborn Lower Limit" && PlainLabel("Newborn Lower Limit");
    assert CsvHeader[9] == "Newborn Upper Limit" && PlainLabel("Newborn Upper Limit");
  }

  lemma HeaderLabelsPlain6()
    ensures forall i :: 10 <= i < 12 ==> PlainLabel(CsvHeader[i])
  {
    assert CsvHeader[10] == "Infant Lower Limit" && PlainLabel("Infant Lower Limit");
    assert CsvHeader[11] == "Infant Upper Limit" && PlainLabel("Infant Upper Limit");
  }

  lemma HeaderLabelsPlain7()
    ensures forall i :: 12 <= i < 14 ==> PlainLabel(CsvHeader[i])
  {
    assert CsvHeader[12] == "Toddler Lower Limit" && PlainLabel("Toddler Lower Limit");
    assert CsvHeader[13] == "Toddler Upper Limit" && PlainLabel("Toddler Upper Limit");
  }

  lemma HeaderLabelsPlain8()
    ensures forall i :: 14 <= i < 16 ==> PlainLabel(CsvHeader[i])
  {
    assert CsvHeader[14] == "Child Lower Limit" && PlainLabel("Child Lower Limit");
    assert CsvHeader[15] == "Child Upper Limit" && PlainLabel("Child Upper Limit");
  }

  lemma HeaderLabelsPlain9()
    ensures forall i :: 16 <= i < 18 ==> PlainLabel(CsvHeader[i])
  {
    assert CsvHeader[16] == "Adolescent Male Lower Limit" && PlainLabel("Adolescent Male Lower Limit");
    assert CsvHeader[17] == "Adolescent Male Upper Limit" && PlainLabel("Adolescent Male Upper Limit");
  }

  lemma HeaderLabelsPlain10()
    ensures forall i :: 18 <= i < 20 ==> PlainLabel(CsvHeader[i])
  {
    assert CsvHeader[18] == "Adolescent Female Lower Limit" && PlainLabel("Adolescent Female Lower Limit");
    assert CsvHeader[19] == "Adolescent Female Upper Limit" && PlainLabel("Adolescent Female Upper Limit");
  }

  lemma HeaderLabelsPlain11()
    ensures forall i :: 20 <= i < 22 ==> PlainLabel(CsvHeader[i])
  {
    assert CsvHeader[20] == "Adolescent Lower Limit" && PlainLabel("Adolescent Lower Limit");
    assert CsvHeader[21] == "Adolescent Upper Limit" && PlainLabel("Adolescent Upper Limit");
  }

  lemma HeaderLabelsPlain12()
    ensures forall i :: 22 <= i < 24 ==> PlainLabel(CsvHeader[i])
  {
    assert CsvHeader[22] == "Geriatric Lower Limit" && PlainLabel("Geriatric Lower Limit");
    assert CsvHeader[23] == "Geriatric Upper Limit" && PlainLabel("Geriatric Upper Limit");
  }

  lemma HeaderLabelsPlain13()
    ensures forall i :: 24 <= i < 26 ==> PlainLabel(CsvHeader[i])
  {
    assert CsvHeader[24] == "Type of Specimen" && PlainLabel("Type of Specimen");
    assert CsvHeader[25] == "Medicine Introduction" && PlainLabel("Medicine Introduction");
  }

  lemma HeaderLabelsPlain14()
    ensures forall i :: 26 <= i < 28 ==> PlainLabel(CsvHeader[i])
  {
    assert CsvHeader[26] == "Time of Sample Collection" && PlainLabel("Time of Sample Collection");
    assert CsvHeader[27] == "Test Environment Temperature" && PlainLabel("Test Environment Temperature");
  }

  lemma HeaderLabelsPlain15()
    ensures forall i :: 28 <= i < 30 ==> PlainLabel(CsvHeader[i])
  {
    assert CsvHeader[28] == "Methodology" && PlainLabel("Methodology");
    assert CsvHeader[29] == "Patient-Friendly Interpretation" && PlainLabel("Patient-Friendly Interpretation");
  }

  lemma HeaderLabelsPlain16()
    ensures forall i :: 30 <= i < 32 ==> PlainLabel(CsvHeader[i])
  {
    assert CsvHeader[30] == "Calculation formulae" && PlainLabel("Calculation formulae");
    assert CsvHeader[31] == "Test ID" && PlainLabel("Test ID");
  }

  lemma HeaderLabelsPlain17()
    ensures forall i :: 32 <= i < 34 ==> PlainLabel(CsvHeader[i])
  {
    assert CsvHeader[32] == "Component ID" && PlainLabel("Component ID");
    assert CsvHeader[33] == "Ordering" && PlainLabel("Ordering");
  }

  /** The first line reads back as the 34 header labels. */
  lemma HeaderLineRoundTrip()
    ensures |CsvHeader| == 34
    ensures ParseLine(HeaderLine()) == Some(CsvHeader)
  {
    HeaderLabelsPlain();
    assert EscapeAll(CsvHeader) == CsvHeader;
    ParseLineRoundTrip(CsvHeader);
  }

  /** The header is a single line. */
  lemma HeaderSingleLine()
    ensures '\n' !in HeaderLine()
  {
    HeaderLabelsPlain();
    JoinKeepsLineFeeds(CsvHeader, ',');
  }

  /** `text.split(sep)` */
  function SplitOn(text: string, sep: char): (parts: seq<string>)
    ensures |parts| > 0
  {
    if |text| == 0 then [[]]
    else
      var rest := SplitOn(text[1..], sep);
      if text[0] == sep then [[]] + rest else [[text[0]] + rest[0]] + rest[1..]
  }

  /** Joining parts that do not hold the separator and splitting again
      gives the parts back. */
  lemma {:induction false} SplitJoin(parts: seq<string>, sep: char)
    requires |parts| > 0
    requires forall i :: 0 <= i < |parts| ==> sep !in parts[i]
    ensures SplitOn(JoinWith(parts, sep), sep) == parts
  {
    if |parts| == 1 {
      SplitPlain(parts[0], [], sep);
      assert parts[0] + [] == parts[0];
    } else {
      SplitJoin(parts[1..], sep);
      var tail := JoinWith(parts[1..], sep);
      SplitPlain(parts[0], [sep] + tail, sep);
      assert JoinWith(parts, sep) == parts[0] + ([sep] + tail);
      assert ([sep] + tail)[1..] == tail;
      assert parts == [parts[0]] + parts[1..];
    }
  }

  /** A first line and further lines, none holding a line feed, come back
      apart when their join is split at line feeds. */
  lemma SplitLines(first: string, rest: seq<string>)
    requires '\n' !in first
    requires forall i :: 0 <= i < |rest| ==> '\n' !in rest[i]
    ensures SplitOn(JoinWith([first] + rest, '\n'), '\n') == [first] + rest
  {
    var lines := [first] + rest;
    assert forall i :: 0 < i < |lines| ==> lines[i] == rest[i - 1];
    SplitJoin(lines, '\n');
  }

  /** Splitting a text that starts with a part free of the separator: the
      part comes first, glued to whatever the rest starts with. */
  lemma {:induction false} SplitPlain(p: string, rest: string, sep: char)
    requires sep !in p
    requires rest == [] || rest[0] == sep
    ensures rest == [] ==> SplitOn(p + rest, sep) == [p]
    ensures rest != [] ==> SplitOn(p + rest, sep) == [p] + SplitOn(rest[1..], sep)
  {
    if |p| == 0 {
      assert p + rest == rest;
    } else {
      assert (p + rest)[1..] == p[1..] + rest;
      assert p[0] in p;
      SplitPlain(p[1..], rest, sep);
      assert [p[0]] + p[1..] == p;
    }
  }

  /** Escaping adds only quotes, so it never introduces a line feed. */
  lemma EscapeKeepsLineFeeds(s: string)
    requires '\n' !in s
    ensures '\n' !in Escape(s)
  {
    DoubleQuotesNoLineFeed(s);
  }

  lemma {:induction false} DoubleQuotesNoLineFeed(s: string)
    requires '\n' !in s
    ensures '\n' !in DoubleQuotes(s)
  {
    if |s| > 0 {
      assert s[0] in s;
      assert forall c :: c in s[1..] ==> c in s;
      DoubleQuotesNoLineFeed(s[1..]);
    }
  }

  lemma {:induction false} JoinKeepsLineFeeds(parts: seq<string>, sep: char)
    requires sep != '\n'
    requires forall i :: 0 <= i < |parts| ==> '\n' !in parts[i]
    ensures '\n' !in JoinWith(parts, sep)
  {
    if |parts| > 1 {
      JoinKeepsLineFeeds(parts[1..], sep);
    }
  }
}
